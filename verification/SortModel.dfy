/** The quicksort of callgrind/dump.c on values: insertion sort, median pivots, three-way partition, and
    the two rotations that bring the keys equal to the pivot into the middle. */
module SortModel {

  /** cmp orders its arguments totally; it may call different ones equal. */
  ghost predicate Comparator<T(!new)>(cmp: (T, T) -> int) {
    && (forall x, y :: cmp(x, y) < 0 <==> cmp(y, x) > 0)
    && (forall x, y, z :: cmp(x, y) <= 0 && cmp(y, z) <= 0 ==> cmp(x, z) <= 0)
  }

  ghost predicate Sorted<T>(s: seq<T>, lo: nat, hi: nat, cmp: (T, T) -> int)
    requires hi <= |s|
  {
    forall i, j :: lo <= i < j < hi ==> cmp(s[i], s[j]) <= 0
  }

  ghost predicate DistinctKeys<T>(s: seq<T>, lo: nat, hi: nat, cmp: (T, T) -> int)
    requires hi <= |s|
  {
    forall i, j :: lo <= i < j < hi ==> cmp(s[i], s[j]) != 0
  }

  // ----- rearranging part of an array

  /** after is before with the elements from lo to hi in another order. */
  ghost predicate Shuffled<T>(before: seq<T>, after: seq<T>, lo: nat, hi: nat) {
    && |before| == |after| && multiset(before) == multiset(after)
    && forall k :: 0 <= k < |before| && !(lo <= k < hi) ==> after[k] == before[k]
  }

  lemma ThreeParts<T>(s: seq<T>, lo: nat, hi: nat)
    requires lo <= hi <= |s|
    ensures multiset(s) == multiset(s[..lo]) + multiset(s[lo..hi]) + multiset(s[hi..])
  {
    assert s == s[..lo] + s[lo..hi] + s[hi..];
  }

  lemma Cancel<T>(a: multiset<T>, b: multiset<T>, b': multiset<T>, c: multiset<T>)
    requires a + b + c == a + b' + c
    ensures b == b'
  {
    assert forall x :: (a + b + c)[x] == a[x] + b[x] + c[x] && (a + b' + c)[x] == a[x] + b'[x] + c[x];
  }

  lemma SamePart<T>(before: seq<T>, after: seq<T>, lo: nat, hi: nat)
    requires Shuffled(before, after, lo, hi) && lo <= hi <= |before|
    ensures multiset(before[lo..hi]) == multiset(after[lo..hi])
  {
    ThreeParts(before, lo, hi);
    ThreeParts(after, lo, hi);
    assert before[..lo] == after[..lo] && before[hi..] == after[hi..];
    Cancel(multiset(before[..lo]), multiset(before[lo..hi]), multiset(after[lo..hi]), multiset(before[hi..]));
  }

  /** An element of the part is still an element of the part. */
  lemma StillThere<T>(before: seq<T>, after: seq<T>, lo: nat, hi: nat, i: nat) returns (k: nat)
    requires Shuffled(before, after, lo, hi) && lo <= i < hi <= |before|
    ensures lo <= k < hi && before[k] == after[i]
  {
    SamePart(before, after, lo, hi);
    assert after[lo..hi][i - lo] in multiset(before[lo..hi]);
    var m :| 0 <= m < hi - lo && before[lo..hi][m] == after[i];
    k := lo + m;
  }

  function Swapped<T>(s: seq<T>, i: nat, j: nat): (t: seq<T>)
    requires i < |s| && j < |s|
    ensures |t| == |s|
  {
    seq(|s|, k requires 0 <= k < |s| => if k == i then s[j] else if k == j then s[i] else s[k])
  }

  lemma SwapShuffles<T>(s: seq<T>, i: nat, j: nat, lo: nat, hi: nat)
    requires lo <= i < hi <= |s| && lo <= j < hi
    ensures Shuffled(s, Swapped(s, i, j), lo, hi)
  {
    assert Swapped(s, i, j) == s[i := s[j]][j := s[i]];
  }

  // ----- pivots

  /** med3: the position of the middle one of three elements. */
  function Med3<T>(s: seq<T>, i: nat, j: nat, k: nat, cmp: (T, T) -> int): (m: nat)
    requires i < |s| && j < |s| && k < |s|
    ensures m == i || m == j || m == k
  {
    if cmp(s[i], s[j]) < 0
    then (if cmp(s[j], s[k]) < 0 then j else if cmp(s[i], s[k]) < 0 then k else i)
    else (if cmp(s[j], s[k]) > 0 then j else if cmp(s[i], s[k]) > 0 then k else i)
  }

  ghost predicate Between<T>(x: T, m: T, y: T, cmp: (T, T) -> int) {
    (cmp(x, m) <= 0 && cmp(m, y) <= 0) || (cmp(y, m) <= 0 && cmp(m, x) <= 0)
  }

  lemma Med3IsMedian<T(!new)>(s: seq<T>, i: nat, j: nat, k: nat, cmp: (T, T) -> int)
    requires i < |s| && j < |s| && k < |s| && Comparator(cmp)
    ensures var m := Med3(s, i, j, k, cmp);
      || (m == i && Between(s[j], s[m], s[k], cmp))
      || (m == j && Between(s[i], s[m], s[k], cmp))
      || (m == k && Between(s[i], s[m], s[j], cmp))
  {
  }

  /** The middle element, the median of three, or the median of three such medians. */
  function Pivot<T>(s: seq<T>, lo: nat, n: nat, cmp: (T, T) -> int): (pm: nat)
    requires n >= 7 && lo + n <= |s|
    ensures lo <= pm < lo + n
  {
    var mid := lo + n / 2;
    if n <= 7 then mid
    else if n <= 40 then Med3(s, lo, mid, lo + n - 1, cmp)
    else
      var d := n / 8;
      Med3(s, Med3(s, lo, lo + d, lo + 2 * d, cmp), Med3(s, mid - d, mid, mid + d, cmp),
           Med3(s, lo + n - 1 - 2 * d, lo + n - 1 - d, lo + n - 1, cmp), cmp)
  }

  lemma Med3Sides<T(!new)>(s: seq<T>, i: nat, j: nat, k: nat, cmp: (T, T) -> int) returns (x: nat, y: nat)
    requires i < |s| && j < |s| && k < |s| && i != j && j != k && i != k && Comparator(cmp)
    ensures var m := Med3(s, i, j, k, cmp);
            && x in {i, j, k} && y in {i, j, k} && x != m && y != m && x != y
            && cmp(s[x], s[m]) <= 0 && cmp(s[m], s[y]) <= 0
  {
    var m := Med3(s, i, j, k, cmp);
    Med3IsMedian(s, i, j, k, cmp);
    x, y := if m == i then j else i, if m == k then j else k;
    if !(cmp(s[x], s[m]) <= 0 && cmp(s[m], s[y]) <= 0) {
      x, y := y, x;
    }
  }

  /** Positions whose elements are not larger, or not smaller, than that of pm. */
  ghost predicate Side<T>(s: seq<T>, lo: nat, n: nat, pm: nat, up: bool, ps: seq<nat>, cmp: (T, T) -> int) {
    && pm < |s| && (forall i :: 0 <= i < |ps| ==> lo <= ps[i] < lo + n <= |s| && ps[i] != pm)
    && (forall i, j :: 0 <= i < j < |ps| ==> ps[i] != ps[j])
    && (forall i :: 0 <= i < |ps| ==> if up then cmp(s[pm], s[ps[i]]) <= 0 else cmp(s[ps[i]], s[pm]) <= 0)
  }

  lemma OneOnSide<T>(s: seq<T>, lo: nat, n: nat, pm: nat, p: nat, up: bool, cmp: (T, T) -> int)
    requires lo + n <= |s| && pm < |s| && lo <= p < lo + n && p != pm
    requires if up then cmp(s[pm], s[p]) <= 0 else cmp(s[p], s[pm]) <= 0
    ensures Side(s, lo, n, pm, up, [p], cmp)
  {
  }

  /** The pivot of 7 keys has three before it and three after it. */
  lemma PivotOfSeven<T>(s: seq<T>, lo: nat, cmp: (T, T) -> int)
    requires lo + 7 <= |s|
    ensures var pm := Pivot(s, lo, 7, cmp); pm - lo == 3 && lo + 7 - 1 - pm == 3
  {
  }

  /** The pivot of more than 7 keys has a key at or below it and one at or above it. */
  lemma PivotIsBetween<T(!new)>(s: seq<T>, lo: nat, n: nat, cmp: (T, T) -> int) returns (x: seq<nat>, y: seq<nat>)
    requires 7 < n <= 40 && lo + n <= |s| && Comparator(cmp)
    ensures |x| == |y| == 1 && Side(s, lo, n, Pivot(s, lo, n, cmp), false, x, cmp) && Side(s, lo, n, Pivot(s, lo, n, cmp), true, y, cmp)
  {
    var p, q := Med3Sides(s, lo, lo + n / 2, lo + n - 1, cmp);
    x, y := [p], [q];
    OneOnSide(s, lo, n, Pivot(s, lo, n, cmp), p, false, cmp);
    OneOnSide(s, lo, n, Pivot(s, lo, n, cmp), q, true, cmp);
    hide Med3, Comparator, Side;
  }

  /** A middle key m of three in the positions from start up to end, with one at or below it and one at or above. */
  ghost predicate Middle<T>(s: seq<T>, start: nat, end: nat, x: nat, m: nat, y: nat, cmp: (T, T) -> int) {
    && end <= |s| && start <= x < end && start <= m < end && start <= y < end && x != m && y != m
    && cmp(s[x], s[m]) <= 0 && cmp(s[m], s[y]) <= 0
  }

  lemma MiddleOfThree<T(!new)>(s: seq<T>, start: nat, d: nat, cmp: (T, T) -> int) returns (x: nat, m: nat, y: nat)
    requires d > 0 && start + 2 * d < |s| && Comparator(cmp)
    ensures m == Med3(s, start, start + d, start + 2 * d, cmp) && Middle(s, start, start + 2 * d + 1, x, m, y, cmp)
  {
    x, y := Med3Sides(s, start, start + d, start + 2 * d, cmp);
    m := Med3(s, start, start + d, start + 2 * d, cmp);
  }

  /** Three keys on one side of pm: one from its own three, and the middle p of another three with one of those. */
  lemma ThreeOnSide<T(!new)>(s: seq<T>, lo: nat, n: nat, pm: nat, own: nat, p: nat, other: nat, up: bool, cmp: (T, T) -> int)
    requires lo + n <= |s| && Comparator(cmp) && pm < |s|
    requires lo <= own < lo + n && lo <= p < lo + n && lo <= other < lo + n
    requires own != pm && p != pm && other != pm && own != p && own != other && p != other
    requires if up then cmp(s[pm], s[own]) <= 0 && cmp(s[pm], s[p]) <= 0 && cmp(s[p], s[other]) <= 0
             else cmp(s[own], s[pm]) <= 0 && cmp(s[p], s[pm]) <= 0 && cmp(s[other], s[p]) <= 0
    ensures Side(s, lo, n, pm, up, [own, p, other], cmp)
  {
  }

  /** The nine places of more than 40 keys are in three groups, one after the other. */
  lemma NinePlaces(n: nat)
    requires n > 40
    ensures 0 < n / 8 && 2 * (n / 8) < n / 2 - n / 8 && n / 2 + n / 8 < n - 1 - 2 * (n / 8)
  {
  }

  lemma MiddleOfMiddles<T(!new)>(s: seq<T>, lo: nat, n: nat, h1: nat, h2: nat, xa: nat, a: nat, ya: nat,
                                 xb: nat, b: nat, yb: nat, xc: nat, c: nat, yc: nat, cmp: (T, T) -> int)
      returns (x: seq<nat>, y: seq<nat>)
    requires lo + n <= |s| && Comparator(cmp) && lo <= h1 <= h2 <= lo + n
    requires Middle(s, lo, h1, xa, a, ya, cmp) && Middle(s, h1, h2, xb, b, yb, cmp) && Middle(s, h2, lo + n, xc, c, yc, cmp)
    ensures |x| == |y| == 3
    ensures var pm := Med3(s, a, b, c, cmp); Side(s, lo, n, pm, false, x, cmp) && Side(s, lo, n, pm, true, y, cmp)
  {
    hide Side, Comparator;
    var p, q := Med3Sides(s, a, b, c, cmp);
    var pm := Med3(s, a, b, c, cmp);
    hide Med3;
    var ownX, ownY := if pm == a then xa else if pm == b then xb else xc, if pm == a then ya else if pm == b then yb else yc;
    var otherX, otherY := if p == a then xa else if p == b then xb else xc, if q == a then ya else if q == b then yb else yc;
    ThreeOnSide(s, lo, n, pm, ownX, p, otherX, false, cmp);
    ThreeOnSide(s, lo, n, pm, ownY, q, otherY, true, cmp);
    x, y := [ownX, p, otherX], [ownY, q, otherY];
  }

  lemma Widened<T>(s: seq<T>, l: nat, h: nat, l': nat, h': nat, x: nat, m: nat, y: nat, cmp: (T, T) -> int)
    requires Middle(s, l, h, x, m, y, cmp) && l' <= l && h <= h' <= |s|
    ensures Middle(s, l', h', x, m, y, cmp)
  {
  }

  /** That of more than 40 keys has three on either side. */
  lemma PivotIsMiddling<T(!new)>(s: seq<T>, lo: nat, n: nat, cmp: (T, T) -> int) returns (x: seq<nat>, y: seq<nat>)
    requires n > 40 && lo + n <= |s| && Comparator(cmp)
    ensures |x| == |y| == 3 && Side(s, lo, n, Pivot(s, lo, n, cmp), false, x, cmp) && Side(s, lo, n, Pivot(s, lo, n, cmp), true, y, cmp)
  {
    hide Med3, Side, Comparator, Middle;
    var d, mid, last := n / 8, lo + n / 2, lo + n - 1 - 2 * (n / 8);
    NinePlaces(n);
    var xa, a, ya := MiddleOfThree(s, lo, d, cmp);
    var xb, b, yb := MiddleOfThree(s, mid - d, d, cmp);
    var xc, c, yc := MiddleOfThree(s, last, d, cmp);
    Widened(s, lo, lo + 2 * d + 1, lo, mid - d, xa, a, ya, cmp);
    Widened(s, mid - d, mid + d + 1, mid - d, last, xb, b, yb, cmp);
    x, y := MiddleOfMiddles(s, lo, n, mid - d, last, xa, a, ya, xb, b, yb, xc, c, yc, cmp);
  }

  // ----- insertion sort

  /** The inner loop: the element at pl sinks while the one before it is larger. */
  function Sink<T>(s: seq<T>, lo: nat, pl: nat, cmp: (T, T) -> int): (t: seq<T>)
    requires lo <= pl < |s|
    ensures |t| == |s|
    decreases pl
  {
    if pl > lo && cmp(s[pl - 1], s[pl]) > 0 then Sink(Swapped(s, pl, pl - 1), lo, pl - 1, cmp) else s
  }

  /** The elements before pm inserted one by one. */
  function Inserted<T>(s: seq<T>, lo: nat, pm: nat, cmp: (T, T) -> int): (t: seq<T>)
    requires lo < pm <= |s|
    ensures |t| == |s|
    decreases pm
  {
    if pm == lo + 1 then s else Sink(Inserted(s, lo, pm - 1, cmp), lo, pm - 1, cmp)
  }

  function InsertionSort<T>(s: seq<T>, lo: nat, n: nat, cmp: (T, T) -> int): (t: seq<T>)
    requires lo + n <= |s|
    ensures |t| == |s|
  {
    if n == 0 then s else Inserted(s, lo, lo + n, cmp)
  }

  // ----- three-way partition

  datatype Part<T> = Part(s: seq<T>, pa: int, pb: int, pc: int, pd: int)

  predicate InBounds<T>(p: Part<T>, lo: nat, hi: nat) {
    lo <= p.pa <= p.pb <= p.pc + 1 && p.pc <= p.pd < hi <= |p.s|
  }

  function EqualToStart<T>(p: Part<T>): (q: Part<T>)
    requires 0 <= p.pa < |p.s| && 0 <= p.pb < |p.s|
  {
    p.(s := Swapped(p.s, p.pa, p.pb), pa := p.pa + 1, pb := p.pb + 1)
  }

  function EqualToEnd<T>(p: Part<T>): (q: Part<T>)
    requires 0 <= p.pc < |p.s| && 0 <= p.pd < |p.s|
  {
    p.(s := Swapped(p.s, p.pc, p.pd), pc := p.pc - 1, pd := p.pd - 1)
  }

  function Exchange<T>(p: Part<T>): (q: Part<T>)
    requires 0 <= p.pb < |p.s| && 0 <= p.pc < |p.s|
  {
    p.(s := Swapped(p.s, p.pb, p.pc), pb := p.pb + 1, pc := p.pc - 1)
  }

  /** The first scan goes up to the next larger key, and moves equal ones to the start. */
  function ScanUp<T>(p: Part<T>, lo: nat, hi: nat, v: T, cmp: (T, T) -> int): (q: Part<T>)
    requires InBounds(p, lo, hi)
    ensures InBounds(q, lo, hi) && |q.s| == |p.s| && p.pb <= q.pb && q.pc == p.pc && q.pd == p.pd
    ensures q.pb <= q.pc ==> cmp(q.s[q.pb], v) > 0
    decreases p.pc - p.pb + 1
  {
    if p.pb <= p.pc && cmp(p.s[p.pb], v) <= 0 then
      if cmp(p.s[p.pb], v) == 0
      then ScanUp(EqualToStart(p), lo, hi, v, cmp)
      else ScanUp(p.(pb := p.pb + 1), lo, hi, v, cmp)
    else p
  }

  /** The second scan goes down to the next smaller key, and moves equal ones to the end. */
  function ScanDown<T>(p: Part<T>, lo: nat, hi: nat, v: T, cmp: (T, T) -> int): (q: Part<T>)
    requires InBounds(p, lo, hi)
    requires p.pb <= p.pc ==> cmp(p.s[p.pb], v) > 0
    ensures InBounds(q, lo, hi) && |q.s| == |p.s| && q.pc <= p.pc && q.pa == p.pa && q.pb == p.pb
    ensures q.pb <= q.pc ==> q.pb < q.pc && cmp(q.s[q.pb], v) > 0 && cmp(q.s[q.pc], v) < 0
    decreases p.pc - p.pb + 1
  {
    if p.pb <= p.pc && cmp(p.s[p.pc], v) >= 0 then
      if cmp(p.s[p.pc], v) == 0
      then ScanDown(EqualToEnd(p), lo, hi, v, cmp)
      else ScanDown(p.(pc := p.pc - 1), lo, hi, v, cmp)
    else p
  }

  /** Both scans, until they meet. */
  function Split<T>(p: Part<T>, lo: nat, hi: nat, v: T, cmp: (T, T) -> int): (q: Part<T>)
    requires InBounds(p, lo, hi)
    ensures InBounds(q, lo, hi) && |q.s| == |p.s| && q.pb == q.pc + 1
    decreases p.pc - p.pb + 1
  {
    var q := ScanDown(ScanUp(p, lo, hi, v, cmp), lo, hi, v, cmp);
    if q.pb > q.pc then q
    else Split(Exchange(q), lo, hi, v, cmp)
  }

  /** The loop that swaps c elements from i on with those from j on, one after the other. */
  function Rotated<T>(s: seq<T>, i: nat, j: nat, c: nat): (t: seq<T>)
    requires i <= j && j + c <= |s|
    ensures |t| == |s|
  {
    if c == 0 then s else Swapped(Rotated(s, i, j, c - 1), i + c - 1, j + c - 1)
  }

  /** The array after the partition; from lo on, smaller keys, and up to the end, larger keys. */
  datatype Parted<T> = Parted(s: seq<T>, smaller: nat, larger: nat, atStart: nat)

  /** The two rotations. */
  function Gather<T>(p: Part<T>, lo: nat, hi: nat): (r: Parted<T>)
    requires InBounds(p, lo, hi) && p.pb == p.pc + 1
    ensures |r.s| == |p.s| && r.smaller + r.larger <= hi - lo
  {
    var atStart, atEnd := p.pa - lo, hi - 1 - p.pd;
    var t := Rotated(p.s, lo, p.pb - atStart, atStart);
    Parted(Rotated(t, p.pb, hi - atEnd, atEnd), p.pb - p.pa, p.pd + 1 - p.pb, atStart)
  }

  function AllUnsplit<T>(s: seq<T>, lo: nat, hi: nat): Part<T>
    requires lo < hi
  {
    Part(s, lo, lo, hi - 1, hi - 1)
  }

  function Partition<T>(s: seq<T>, lo: nat, n: nat, v: T, cmp: (T, T) -> int): (r: Parted<T>)
    requires n > 0 && lo + n <= |s|
    ensures |r.s| == |s| && r.smaller + r.larger <= n
  {
    Gather(Split(AllUnsplit(s, lo, lo + n), lo, lo + n, v, cmp), lo, lo + n)
  }

  lemma SplitStep<T>(p: Part<T>, lo: nat, hi: nat, v: T, cmp: (T, T) -> int)
    requires InBounds(p, lo, hi)
    ensures var q := ScanDown(ScanUp(p, lo, hi, v, cmp), lo, hi, v, cmp);
      Split(p, lo, hi, v, cmp) == if q.pb > q.pc then q else Split(Exchange(q), lo, hi, v, cmp)
  {
  }

  lemma ScanUpStep<T>(p: Part<T>, lo: nat, hi: nat, v: T, cmp: (T, T) -> int)
    requires InBounds(p, lo, hi)
    ensures ScanUp(p, lo, hi, v, cmp)
         == if p.pb > p.pc || cmp(p.s[p.pb], v) > 0 then p
            else ScanUp(if cmp(p.s[p.pb], v) == 0 then EqualToStart(p) else p.(pb := p.pb + 1), lo, hi, v, cmp)
  {
  }

  lemma ScanDownStep<T>(p: Part<T>, lo: nat, hi: nat, v: T, cmp: (T, T) -> int)
    requires InBounds(p, lo, hi) && (p.pb <= p.pc ==> cmp(p.s[p.pb], v) > 0)
    ensures ScanDown(p, lo, hi, v, cmp)
         == if p.pb > p.pc || cmp(p.s[p.pc], v) < 0 then p
            else ScanDown(if cmp(p.s[p.pc], v) == 0 then EqualToEnd(p) else p.(pc := p.pc - 1), lo, hi, v, cmp)
  {
  }

  // ----- insertion sort sorts

  /** All in order up to and including pm, except that the element at pl may belong further down. */
  ghost predicate Sinking<T>(s: seq<T>, lo: nat, pl: nat, pm: nat, cmp: (T, T) -> int)
    requires pm < |s|
  {
    forall i, j :: lo <= i < j <= pm && j != pl ==> cmp(s[i], s[j]) <= 0
  }

  lemma SinkOnce<T(!new)>(s: seq<T>, lo: nat, pl: nat, pm: nat, cmp: (T, T) -> int)
    requires lo < pl <= pm < |s| && Comparator(cmp) && Sinking(s, lo, pl, pm, cmp)
    requires cmp(s[pl - 1], s[pl]) > 0
    ensures Sinking(Swapped(s, pl, pl - 1), lo, pl - 1, pm, cmp)
  {
    var t := Swapped(s, pl, pl - 1);
    forall i, j | lo <= i < j <= pm && j != pl - 1
      ensures cmp(t[i], t[j]) <= 0
    {
      if i == pl - 1 && j == pl {
        assert cmp(s[pl], s[pl - 1]) < 0;
      }
    }
  }

  lemma SunkIsSorted<T(!new)>(s: seq<T>, lo: nat, pl: nat, pm: nat, cmp: (T, T) -> int)
    requires lo <= pl <= pm < |s| && Comparator(cmp) && Sinking(s, lo, pl, pm, cmp)
    requires pl > lo ==> cmp(s[pl - 1], s[pl]) <= 0
    ensures Sorted(s, lo, pm + 1, cmp)
  {
    forall i | lo <= i < pl
      ensures cmp(s[i], s[pl]) <= 0
    {
      if i < pl - 1 {
        assert cmp(s[i], s[pl - 1]) <= 0;
      }
    }
  }

  lemma {:induction false} SinkSorts<T(!new)>(s: seq<T>, lo: nat, pl: nat, pm: nat, cmp: (T, T) -> int)
    requires lo <= pl <= pm < |s| && Comparator(cmp) && Sinking(s, lo, pl, pm, cmp)
    ensures Sorted(Sink(s, lo, pl, cmp), lo, pm + 1, cmp)
    decreases pl
  {
    hide Sinking, Sorted, Swapped, Comparator;
    if pl > lo && cmp(s[pl - 1], s[pl]) > 0 {
      SinkOnce(s, lo, pl, pm, cmp);
      SinkSorts(Swapped(s, pl, pl - 1), lo, pl - 1, pm, cmp);
    } else {
      SunkIsSorted(s, lo, pl, pm, cmp);
    }
  }

  lemma {:induction false} SinkShuffles<T>(s: seq<T>, lo: nat, pl: nat, hi: nat, cmp: (T, T) -> int)
    requires lo <= pl < hi <= |s|
    ensures Shuffled(s, Sink(s, lo, pl, cmp), lo, hi)
    decreases pl
  {
    if pl > lo && cmp(s[pl - 1], s[pl]) > 0 {
      SwapShuffles(s, pl, pl - 1, lo, hi);
      SinkShuffles(Swapped(s, pl, pl - 1), lo, pl - 1, hi, cmp);
    }
  }

  lemma NextSinks<T(!new)>(s: seq<T>, lo: nat, pm: nat, cmp: (T, T) -> int)
    requires lo <= pm < |s| && Comparator(cmp) && Sorted(s, lo, pm, cmp)
    ensures Sinking(s, lo, pm, pm, cmp)
  {
  }

  lemma OneIsSorted<T(!new)>(s: seq<T>, lo: nat, cmp: (T, T) -> int)
    requires lo < |s|
    ensures Sorted(s, lo, lo + 1, cmp)
  {
  }

  lemma {:induction false} InsertedSorts<T(!new)>(s: seq<T>, lo: nat, pm: nat, cmp: (T, T) -> int)
    requires lo < pm <= |s| && Comparator(cmp)
    ensures Sorted(Inserted(s, lo, pm, cmp), lo, pm, cmp)
    decreases pm
  {
    hide Comparator, Sink, Sorted, Sinking;
    if pm > lo + 1 {
      InsertedSorts(s, lo, pm - 1, cmp);
      NextSinks(Inserted(s, lo, pm - 1, cmp), lo, pm - 1, cmp);
      SinkSorts(Inserted(s, lo, pm - 1, cmp), lo, pm - 1, pm - 1, cmp);
    } else {
      OneIsSorted(s, lo, cmp);
    }
  }

  lemma {:induction false} InsertedShuffles<T>(s: seq<T>, lo: nat, pm: nat, hi: nat, cmp: (T, T) -> int)
    requires lo < pm <= hi <= |s|
    ensures Shuffled(s, Inserted(s, lo, pm, cmp), lo, hi)
    decreases pm
  {
    if pm > lo + 1 {
      InsertedShuffles(s, lo, pm - 1, hi, cmp);
      SinkShuffles(Inserted(s, lo, pm - 1, cmp), lo, pm - 1, hi, cmp);
    }
  }

  // ----- what the partition does

  /** From lo up to hi, all keys compare to v as r does to 0. */
  ghost predicate All<T>(s: seq<T>, lo: int, hi: int, v: T, cmp: (T, T) -> int, r: int)
    requires 0 <= lo && hi <= |s|
  {
    forall k :: lo <= k < hi ==> if r < 0 then cmp(s[k], v) < 0 else if r > 0 then cmp(s[k], v) > 0 else cmp(s[k], v) == 0
  }

  /** Equal keys at both ends, next to them the smaller and the larger ones, and the rest in between. */
  ghost predicate InOrder<T>(p: Part<T>, lo: nat, hi: nat, v: T, cmp: (T, T) -> int)
    requires InBounds(p, lo, hi)
  {
    && All(p.s, lo, p.pa, v, cmp, 0) && All(p.s, p.pa, p.pb, v, cmp, -1)
    && All(p.s, p.pc + 1, p.pd + 1, v, cmp, 1) && All(p.s, p.pd + 1, hi, v, cmp, 0)
  }

  lemma EqualToStartKeeps<T>(p: Part<T>, lo: nat, hi: nat, v: T, cmp: (T, T) -> int)
    requires InBounds(p, lo, hi) && InOrder(p, lo, hi, v, cmp) && p.pb <= p.pc && cmp(p.s[p.pb], v) == 0
    ensures InOrder(EqualToStart(p), lo, hi, v, cmp) && Shuffled(p.s, EqualToStart(p).s, lo, hi)
  {
    SwapShuffles(p.s, p.pa, p.pb, lo, hi);
  }

  lemma EqualToEndKeeps<T>(p: Part<T>, lo: nat, hi: nat, v: T, cmp: (T, T) -> int)
    requires InBounds(p, lo, hi) && InOrder(p, lo, hi, v, cmp) && p.pb <= p.pc && cmp(p.s[p.pc], v) == 0
    ensures InOrder(EqualToEnd(p), lo, hi, v, cmp) && Shuffled(p.s, EqualToEnd(p).s, lo, hi)
    ensures p.pb < p.pc ==> EqualToEnd(p).s[p.pb] == p.s[p.pb]
  {
    SwapShuffles(p.s, p.pc, p.pd, lo, hi);
  }

  lemma ExchangeKeeps<T>(p: Part<T>, lo: nat, hi: nat, v: T, cmp: (T, T) -> int)
    requires InBounds(p, lo, hi) && InOrder(p, lo, hi, v, cmp) && p.pb < p.pc && cmp(p.s[p.pb], v) > 0 && cmp(p.s[p.pc], v) < 0
    ensures InOrder(Exchange(p), lo, hi, v, cmp) && Shuffled(p.s, Exchange(p).s, lo, hi)
  {
    SwapShuffles(p.s, p.pb, p.pc, lo, hi);
  }

  lemma SkipSmaller<T>(p: Part<T>, lo: nat, hi: nat, v: T, cmp: (T, T) -> int)
    requires InBounds(p, lo, hi) && InOrder(p, lo, hi, v, cmp) && p.pb <= p.pc && cmp(p.s[p.pb], v) < 0
    ensures InOrder(p.(pb := p.pb + 1), lo, hi, v, cmp)
  {
  }

  lemma SkipLarger<T>(p: Part<T>, lo: nat, hi: nat, v: T, cmp: (T, T) -> int)
    requires InBounds(p, lo, hi) && InOrder(p, lo, hi, v, cmp) && p.pb <= p.pc && cmp(p.s[p.pc], v) > 0
    ensures InOrder(p.(pc := p.pc - 1), lo, hi, v, cmp)
  {
  }

  lemma ShuffledTwice<T>(r: seq<T>, s: seq<T>, t: seq<T>, lo: nat, hi: nat)
    requires Shuffled(r, s, lo, hi) && Shuffled(s, t, lo, hi)
    ensures Shuffled(r, t, lo, hi)
  {
  }

  lemma ShuffledNot<T>(s: seq<T>, lo: nat, hi: nat)
    ensures Shuffled(s, s, lo, hi)
  {
  }

  lemma {:induction false} ScanUpKeeps<T>(p: Part<T>, lo: nat, hi: nat, v: T, cmp: (T, T) -> int)
    requires InBounds(p, lo, hi) && InOrder(p, lo, hi, v, cmp)
    ensures InOrder(ScanUp(p, lo, hi, v, cmp), lo, hi, v, cmp)
    ensures Shuffled(p.s, ScanUp(p, lo, hi, v, cmp).s, lo, hi)
    decreases p.pc - p.pb + 1
  {
    hide InOrder, Shuffled, Swapped;
    ShuffledNot(p.s, lo, hi);
    if p.pb <= p.pc && cmp(p.s[p.pb], v) <= 0 {
      if cmp(p.s[p.pb], v) == 0 {
        EqualToStartKeeps(p, lo, hi, v, cmp);
        ScanUpKeeps(EqualToStart(p), lo, hi, v, cmp);
        ShuffledTwice(p.s, EqualToStart(p).s, ScanUp(p, lo, hi, v, cmp).s, lo, hi);
      } else {
        SkipSmaller(p, lo, hi, v, cmp);
        ScanUpKeeps(p.(pb := p.pb + 1), lo, hi, v, cmp);
      }
    }
  }

  lemma {:induction false} ScanDownKeeps<T>(p: Part<T>, lo: nat, hi: nat, v: T, cmp: (T, T) -> int)
    requires InBounds(p, lo, hi) && InOrder(p, lo, hi, v, cmp)
    requires p.pb <= p.pc ==> cmp(p.s[p.pb], v) > 0
    ensures InOrder(ScanDown(p, lo, hi, v, cmp), lo, hi, v, cmp)
    ensures Shuffled(p.s, ScanDown(p, lo, hi, v, cmp).s, lo, hi)
    decreases p.pc - p.pb + 1
  {
    hide InOrder, Shuffled, Swapped;
    ShuffledNot(p.s, lo, hi);
    if p.pb <= p.pc && cmp(p.s[p.pc], v) >= 0 {
      if cmp(p.s[p.pc], v) == 0 {
        EqualToEndKeeps(p, lo, hi, v, cmp);
        ScanDownKeeps(EqualToEnd(p), lo, hi, v, cmp);
        ShuffledTwice(p.s, EqualToEnd(p).s, ScanDown(p, lo, hi, v, cmp).s, lo, hi);
      } else {
        SkipLarger(p, lo, hi, v, cmp);
        ScanDownKeeps(p.(pc := p.pc - 1), lo, hi, v, cmp);
      }
    }
  }

  lemma {:induction false} SplitKeeps<T>(p: Part<T>, lo: nat, hi: nat, v: T, cmp: (T, T) -> int)
    requires InBounds(p, lo, hi) && InOrder(p, lo, hi, v, cmp)
    ensures InOrder(Split(p, lo, hi, v, cmp), lo, hi, v, cmp)
    ensures Shuffled(p.s, Split(p, lo, hi, v, cmp).s, lo, hi)
    decreases p.pc - p.pb + 1
  {
    hide InOrder, Shuffled, Swapped, ScanUp, ScanDown;
    ScanUpKeeps(p, lo, hi, v, cmp);
    var q := ScanUp(p, lo, hi, v, cmp);
    ScanDownKeeps(q, lo, hi, v, cmp);
    var r := ScanDown(q, lo, hi, v, cmp);
    ShuffledTwice(p.s, q.s, r.s, lo, hi);
    if r.pb <= r.pc {
      ExchangeKeeps(r, lo, hi, v, cmp);
      SplitKeeps(Exchange(r), lo, hi, v, cmp);
      ShuffledTwice(p.s, r.s, Exchange(r).s, lo, hi);
      ShuffledTwice(p.s, Exchange(r).s, Split(p, lo, hi, v, cmp).s, lo, hi);
    }
  }

  lemma {:induction false} RotatedShuffles<T>(s: seq<T>, i: nat, j: nat, c: nat, lo: nat, hi: nat)
    requires lo <= i <= j && j + c <= hi <= |s|
    ensures Shuffled(s, Rotated(s, i, j, c), lo, hi)
    decreases c
  {
    if c > 0 {
      RotatedShuffles(s, i, j, c - 1, lo, hi);
      SwapShuffles(Rotated(s, i, j, c - 1), i + c - 1, j + c - 1, lo, hi);
    }
  }

  /** The first c swaps of the start rotation when the smaller keys are no fewer than the equal ones. */
  lemma {:induction false} StartFits<T>(s: seq<T>, lo: nat, e: nat, l: nat, c: nat, v: T, cmp: (T, T) -> int)
    requires c <= e <= l && lo + e + l <= |s|
    requires All(s, lo, lo + e, v, cmp, 0) && All(s, lo + e, lo + e + l, v, cmp, -1)
    ensures var t := Rotated(s, lo, lo + l, c);
      && All(t, lo, lo + c, v, cmp, -1) && All(t, lo + c, lo + e, v, cmp, 0) && All(t, lo + e, lo + l, v, cmp, -1)
      && All(t, lo + l, lo + l + c, v, cmp, 0) && All(t, lo + l + c, lo + l + e, v, cmp, -1)
    decreases c
  {
    if c > 0 {
      StartFits(s, lo, e, l, c - 1, v, cmp);
    }
  }

  /** After c swaps when they are fewer: equal keys stay in front of them. */
  ghost predicate Overrun<T>(t: seq<T>, lo: nat, e: nat, l: nat, c: nat, v: T, cmp: (T, T) -> int)
    requires c <= e && l < e && lo + e + l <= |t|
  {
    if c <= e - l
    then All(t, lo, lo + e, v, cmp, 0) && All(t, lo + e, lo + e + l, v, cmp, -1)
    else && All(t, lo, lo + e - l, v, cmp, 0) && All(t, lo + e - l, lo + c, v, cmp, -1)
         && All(t, lo + c, lo + l + c, v, cmp, 0) && All(t, lo + l + c, lo + l + e, v, cmp, -1)
  }

  lemma OverrunAmongEqual<T>(t: seq<T>, lo: nat, e: nat, l: nat, c: nat, v: T, cmp: (T, T) -> int)
    requires c < e - l && l < e && lo + e + l <= |t| && Overrun(t, lo, e, l, c, v, cmp)
    ensures Overrun(Swapped(t, lo + c, lo + l + c), lo, e, l, c + 1, v, cmp)
  {
  }

  lemma OverrunSmaller<T>(t: seq<T>, lo: nat, e: nat, l: nat, c: nat, v: T, cmp: (T, T) -> int)
    requires e - l <= c < e && l < e && lo + e + l <= |t| && Overrun(t, lo, e, l, c, v, cmp)
    ensures Overrun(Swapped(t, lo + c, lo + l + c), lo, e, l, c + 1, v, cmp)
  {
  }

  lemma {:induction false} StartOverruns<T>(s: seq<T>, lo: nat, e: nat, l: nat, c: nat, v: T, cmp: (T, T) -> int)
    requires c <= e && l < e && lo + e + l <= |s|
    requires All(s, lo, lo + e, v, cmp, 0) && All(s, lo + e, lo + e + l, v, cmp, -1)
    ensures Overrun(Rotated(s, lo, lo + l, c), lo, e, l, c, v, cmp)
    decreases c
  {
    hide All, Swapped;
    if c > 0 {
      StartOverruns(s, lo, e, l, c - 1, v, cmp);
      hide Overrun;
      var t := Rotated(s, lo, lo + l, c - 1);
      if c - 1 < e - l {
        OverrunAmongEqual(t, lo, e, l, c - 1, v, cmp);
      } else {
        OverrunSmaller(t, lo, e, l, c - 1, v, cmp);
      }
    }
  }

  /** The end rotation always brings the equal keys before the larger ones. */
  lemma {:induction false} EndFits<T>(s: seq<T>, lo: nat, g: nat, e: nat, c: nat, v: T, cmp: (T, T) -> int)
    requires c <= e && lo + g + e <= |s|
    requires All(s, lo, lo + g, v, cmp, 1) && All(s, lo + g, lo + g + e, v, cmp, 0)
    ensures var t := Rotated(s, lo, lo + g, c);
      All(t, lo, lo + c, v, cmp, 0) && All(t, lo + c, lo + g + c, v, cmp, 1) && All(t, lo + g + c, lo + g + e, v, cmp, 0)
    decreases c
  {
    if c > 0 {
      EndFits(s, lo, g, e, c - 1, v, cmp);
    }
  }
}
