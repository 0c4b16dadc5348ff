/** What the quicksort of callgrind/dump.c achieves, on values: a permutation always; sorted exactly when
    no start rotation has more equal keys than a non-empty smaller part; so sorted for distinct keys. */
module Sorting {
  import opened SortModel

  // ----- one partition

  /** What the start rotation makes of l smaller keys after e equal ones. */
  ghost predicate StartShape<T>(t: seq<T>, lo: nat, l: nat, e: nat, v: T, cmp: (T, T) -> int)
    requires lo + l + e <= |t|
  {
    if l == 0 || e <= l
    then All(t, lo, lo + l, v, cmp, -1) && All(t, lo + l, lo + l + e, v, cmp, 0)
    else && All(t, lo, lo + e - l, v, cmp, 0) && All(t, lo + e - l, lo + e, v, cmp, -1)
         && All(t, lo + e, lo + e + l, v, cmp, 0)
  }

  lemma StartRotation<T>(s: seq<T>, lo: nat, l: nat, e: nat, v: T, cmp: (T, T) -> int)
    requires lo + l + e <= |s| && All(s, lo, lo + e, v, cmp, 0) && All(s, lo + e, lo + e + l, v, cmp, -1)
    ensures StartShape(Rotated(s, lo, lo + l, e), lo, l, e, v, cmp)
    ensures Shuffled(s, Rotated(s, lo, lo + l, e), lo, lo + l + e)
  {
    if e <= l {
      StartFits(s, lo, e, l, e, v, cmp);
    } else {
      StartOverruns(s, lo, e, l, e, v, cmp);
    }
    RotatedShuffles(s, lo, lo + l, e, lo, lo + l + e);
  }

  /** After a partition: the larger keys at the end, before them the equal and smaller ones, in groups or
      overrun by the start rotation. */
  ghost predicate Shape<T>(r: Parted<T>, lo: nat, n: nat, v: T, cmp: (T, T) -> int)
    requires lo + n <= |r.s| && r.smaller + r.larger <= n
  {
    && r.smaller + r.atStart + r.larger <= n
    && StartShape(r.s, lo, r.smaller, r.atStart, v, cmp)
    && All(r.s, lo + r.smaller + r.atStart, lo + n - r.larger, v, cmp, 0)
    && All(r.s, lo + n - r.larger, lo + n, v, cmp, 1)
  }

  lemma AllOutside<T>(before: seq<T>, after: seq<T>, lo: nat, hi: nat, i: nat, j: nat, v: T, cmp: (T, T) -> int, r: int)
    requires Shuffled(before, after, lo, hi) && (j <= lo || hi <= i) && j <= |before|
    ensures All(before, i, j, v, cmp, r) ==> All(after, i, j, v, cmp, r)
  {
  }

  lemma StartOutside<T>(before: seq<T>, after: seq<T>, lo: nat, l: nat, e: nat, hi: nat, v: T, cmp: (T, T) -> int)
    requires Shuffled(before, after, lo + l + e, hi) && lo + l + e <= |before| && StartShape(before, lo, l, e, v, cmp)
    ensures StartShape(after, lo, l, e, v, cmp)
  {
  }

  lemma ShuffledWithin<T>(r: seq<T>, s: seq<T>, t: seq<T>, lo: nat, mid: nat, hi: nat)
    requires lo <= mid <= hi && Shuffled(r, s, lo, mid) && Shuffled(s, t, mid, hi)
    ensures Shuffled(r, t, lo, hi)
  {
  }

  lemma StartStep<T>(s: seq<T>, lo: nat, e: nat, l: nat, g: nat, hi: nat, v: T, cmp: (T, T) -> int)
    requires lo + e + l + g <= hi <= |s|
    requires All(s, lo, lo + e, v, cmp, 0) && All(s, lo + e, lo + e + l, v, cmp, -1)
    requires All(s, lo + e + l, lo + e + l + g, v, cmp, 1) && All(s, lo + e + l + g, hi, v, cmp, 0)
    ensures var t := Rotated(s, lo, lo + l, e);
      && StartShape(t, lo, l, e, v, cmp) && Shuffled(s, t, lo, lo + e + l)
      && All(t, lo + e + l, lo + e + l + g, v, cmp, 1) && All(t, lo + e + l + g, hi, v, cmp, 0)
  {
    hide Rotated, All, Shuffled;
    StartRotation(s, lo, l, e, v, cmp);
    var t := Rotated(s, lo, lo + l, e);
    AllOutside(s, t, lo, lo + e + l, lo + e + l, lo + e + l + g, v, cmp, 1);
    AllOutside(s, t, lo, lo + e + l, lo + e + l + g, hi, v, cmp, 0);
  }

  lemma EndStep<T>(t: seq<T>, lo: nat, e: nat, l: nat, g: nat, hi: nat, v: T, cmp: (T, T) -> int)
    requires lo + e + l + g <= hi <= |t| && StartShape(t, lo, l, e, v, cmp)
    requires All(t, lo + e + l, lo + e + l + g, v, cmp, 1) && All(t, lo + e + l + g, hi, v, cmp, 0)
    ensures var e' := hi - lo - e - l - g;
      var u := Rotated(t, lo + e + l, lo + e + l + g, e');
      && StartShape(u, lo, l, e, v, cmp) && Shuffled(t, u, lo + e + l, hi)
      && All(u, lo + e + l, hi - g, v, cmp, 0) && All(u, hi - g, hi, v, cmp, 1)
  {
    hide Rotated, Shuffled;
    var e' := hi - lo - e - l - g;
    EndFits(t, lo + e + l, g, e', e', v, cmp);
    RotatedShuffles(t, lo + e + l, lo + e + l + g, e', lo + e + l, hi);
    StartOutside(t, Rotated(t, lo + e + l, lo + e + l + g, e'), lo, l, e, hi, v, cmp);
  }

  lemma GatherShape<T>(p: Part<T>, lo: nat, hi: nat, v: T, cmp: (T, T) -> int)
    requires InBounds(p, lo, hi) && InOrder(p, lo, hi, v, cmp) && p.pb == p.pc + 1
    ensures Shape(Gather(p, lo, hi), lo, hi - lo, v, cmp)
    ensures Shuffled(p.s, Gather(p, lo, hi).s, lo, hi)
  {
    hide Rotated, All, Shuffled, StartShape;
    var e, l, g: nat := p.pa - lo, p.pb - p.pa, p.pd + 1 - p.pb;
    StartStep(p.s, lo, e, l, g, hi, v, cmp);
    var t := Rotated(p.s, lo, lo + l, e);
    EndStep(t, lo, e, l, g, hi, v, cmp);
    ShuffledWithin(p.s, t, Gather(p, lo, hi).s, lo, p.pb, hi);
  }

  lemma UnsplitInOrder<T>(s: seq<T>, lo: nat, hi: nat, v: T, cmp: (T, T) -> int)
    requires lo < hi <= |s|
    ensures InBounds(AllUnsplit(s, lo, hi), lo, hi) && InOrder(AllUnsplit(s, lo, hi), lo, hi, v, cmp)
  {
  }

  lemma ShuffledBack<T>(s: seq<T>, t: seq<T>, lo: nat, hi: nat)
    requires Shuffled(s, t, lo, hi)
    ensures |s| == |t| && Shuffled(t, s, lo, hi)
  {
  }

  lemma PartitionShape<T>(s: seq<T>, lo: nat, n: nat, v: T, cmp: (T, T) -> int)
    requires n > 0 && lo + n <= |s|
    ensures var r := Partition(s, lo, n, v, cmp); Shape(r, lo, n, v, cmp) && Shuffled(s, r.s, lo, lo + n)
  {
    hide Split, Shuffled, Shape, InOrder;
    var p := AllUnsplit(s, lo, lo + n);
    UnsplitInOrder(s, lo, lo + n, v, cmp);
    SplitKeeps(p, lo, lo + n, v, cmp);
    var q := Split(p, lo, lo + n, v, cmp);
    GatherShape(q, lo, lo + n, v, cmp);
    ShuffledTwice(s, q.s, Gather(q, lo, lo + n).s, lo, lo + n);
  }

  lemma NotSmallerOrLarger<T(!new)>(p: Part<T>, lo: nat, hi: nat, k: nat, cmp: (T, T) -> int)
    requires InBounds(p, lo, hi) && p.pb == p.pc + 1 && lo <= k < hi && InOrder(p, lo, hi, p.s[k], cmp) && Comparator(cmp)
    ensures var r := Gather(p, lo, hi); r.smaller + r.larger < hi - lo
  {
    assert cmp(p.s[k], p.s[k]) == 0;
    assert k < p.pa || k > p.pd;
  }

  /** The pivot is in neither part. */
  lemma PivotStays<T(!new)>(s: seq<T>, lo: nat, n: nat, pm: nat, cmp: (T, T) -> int)
    requires lo <= pm < lo + n <= |s| && Comparator(cmp)
    ensures var r := Partition(s, lo, n, s[pm], cmp); r.smaller + r.larger < n
  {
    hide Split, InOrder, Shuffled;
    var p := AllUnsplit(s, lo, lo + n);
    UnsplitInOrder(s, lo, lo + n, s[pm], cmp);
    SplitKeeps(p, lo, lo + n, s[pm], cmp);
    var q := Split(p, lo, lo + n, s[pm], cmp);
    ShuffledBack(s, q.s, lo, lo + n);
    var k := StillThere(q.s, s, lo, lo + n, pm);
    NotSmallerOrLarger(q, lo, lo + n, k, cmp);
  }

  // ----- the whole sort

  /** The array after the partition of a part that is too large for insertion sort. */
  function Parting<T(!new)>(s: seq<T>, lo: nat, n: nat, cmp: (T, T) -> int): (r: Parted<T>)
    requires n >= 7 && lo + n <= |s| && Comparator(cmp)
    ensures |r.s| == |s| && r.smaller + r.larger < n
  {
    PivotStays(s, lo, n, Pivot(s, lo, n, cmp), cmp);
    Partition(s, lo, n, s[Pivot(s, lo, n, cmp)], cmp)
  }

  function Sort<T(!new)>(s: seq<T>, lo: nat, n: nat, cmp: (T, T) -> int): (t: seq<T>)
    requires lo + n <= |s| && Comparator(cmp)
    ensures |t| == |s|
    decreases n
  {
    if n < 7 then InsertionSort(s, lo, n, cmp)
    else
      var r := Parting(s, lo, n, cmp);
      var t := if r.smaller > 1 then Sort(r.s, lo, r.smaller, cmp) else r.s;
      if r.larger > 1 then Sort(t, lo + n - r.larger, r.larger, cmp) else t
  }

  /** No start rotation of the sort has more equal keys than smaller ones, unless there are no smaller ones. */
  ghost predicate RotationsFit<T(!new)>(s: seq<T>, lo: nat, n: nat, cmp: (T, T) -> int)
    requires lo + n <= |s| && Comparator(cmp)
    decreases n
  {
    n < 7 ||
    var r := Parting(s, lo, n, cmp);
    && (r.smaller == 0 || r.atStart <= r.smaller)
    && RotationsFit(r.s, lo, r.smaller, cmp)
    && RotationsFit(Sort(r.s, lo, r.smaller, cmp), lo + n - r.larger, r.larger, cmp)
  }

  lemma InsertionSorts<T(!new)>(s: seq<T>, lo: nat, n: nat, cmp: (T, T) -> int)
    requires lo + n <= |s| && Comparator(cmp)
    ensures Sorted(InsertionSort(s, lo, n, cmp), lo, lo + n, cmp)
    ensures Shuffled(s, InsertionSort(s, lo, n, cmp), lo, lo + n)
  {
    hide Inserted;
    if n > 0 {
      InsertedSorts(s, lo, lo + n, cmp);
      InsertedShuffles(s, lo, lo + n, lo + n, cmp);
    }
  }

  /** For n >= 7: a partition, and then both parts in turn; a part of one key needs no sorting. */
  lemma SortStep<T(!new)>(s: seq<T>, lo: nat, n: nat, cmp: (T, T) -> int)
    requires n >= 7 && lo + n <= |s| && Comparator(cmp)
    ensures var r := Parting(s, lo, n, cmp);
      Sort(s, lo, n, cmp) == Sort(Sort(r.s, lo, r.smaller, cmp), lo + n - r.larger, r.larger, cmp)
  {
    hide Parting;
  }

  lemma Widen<T>(r: seq<T>, s: seq<T>, lo: nat, hi: nat, lo': nat, hi': nat)
    requires Shuffled(r, s, lo, hi) && lo' <= lo && hi <= hi'
    ensures Shuffled(r, s, lo', hi')
  {
  }

  lemma PartingShape<T(!new)>(s: seq<T>, lo: nat, n: nat, cmp: (T, T) -> int) returns (v: T)
    requires n >= 7 && lo + n <= |s| && Comparator(cmp)
    ensures Shape(Parting(s, lo, n, cmp), lo, n, v, cmp) && Shuffled(s, Parting(s, lo, n, cmp).s, lo, lo + n)
  {
    hide Partition, Shape, Shuffled, Pivot;
    v := s[Pivot(s, lo, n, cmp)];
    PartitionShape(s, lo, n, v, cmp);
  }

  /** Whatever the keys, the result is a permutation, and nothing else is touched. */
  lemma {:induction false} SortShuffles<T(!new)>(s: seq<T>, lo: nat, n: nat, cmp: (T, T) -> int)
    requires lo + n <= |s| && Comparator(cmp)
    ensures Shuffled(s, Sort(s, lo, n, cmp), lo, lo + n)
    decreases n
  {
    hide Parting, Shape, Shuffled, InsertionSort;
    if n < 7 {
      InsertionSorts(s, lo, n, cmp);
    } else {
      var hi, r := lo + n, Parting(s, lo, n, cmp);
      var _ := PartingShape(s, lo, n, cmp);
      SortStep(s, lo, n, cmp);
      SortShuffles(r.s, lo, r.smaller, cmp);
      var t := Sort(r.s, lo, r.smaller, cmp);
      SortShuffles(t, hi - r.larger, r.larger, cmp);
      Widen(r.s, t, lo, lo + r.smaller, lo, hi);
      Widen(t, Sort(s, lo, n, cmp), hi - r.larger, hi, lo, hi);
      ShuffledTwice(s, r.s, t, lo, hi);
      ShuffledTwice(s, t, Sort(s, lo, n, cmp), lo, hi);
    }
  }

  // ----- when the result is sorted

  lemma AllKept<T>(before: seq<T>, after: seq<T>, lo: nat, hi: nat, v: T, cmp: (T, T) -> int, r: int)
    requires Shuffled(before, after, lo, hi) && lo <= hi <= |before| && All(before, lo, hi, v, cmp, r)
    ensures All(after, lo, hi, v, cmp, r)
  {
    forall k | lo <= k < hi
      ensures if r < 0 then cmp(after[k], v) < 0 else if r > 0 then cmp(after[k], v) > 0 else cmp(after[k], v) == 0
    {
      var _ := StillThere(before, after, lo, hi, k);
    }
  }

  lemma SortedAlike<T>(s: seq<T>, t: seq<T>, lo: nat, hi: nat, lo': nat, hi': nat, cmp: (T, T) -> int)
    requires Shuffled(s, t, lo, hi) && (hi' <= lo || hi <= lo') && hi' <= |s|
    ensures Sorted(s, lo', hi', cmp) <==> Sorted(t, lo', hi', cmp)
  {
  }

  /** Three groups make a sorted whole exactly when the outer two are sorted. */
  lemma ThreeGroups<T(!new)>(u: seq<T>, lo: nat, i: nat, j: nat, hi: nat, v: T, cmp: (T, T) -> int)
    requires lo <= i <= j <= hi <= |u| && Comparator(cmp)
    requires All(u, lo, i, v, cmp, -1) && All(u, i, j, v, cmp, 0) && All(u, j, hi, v, cmp, 1)
    ensures Sorted(u, lo, hi, cmp) <==> Sorted(u, lo, i, cmp) && Sorted(u, j, hi, cmp)
  {
    if Sorted(u, lo, i, cmp) && Sorted(u, j, hi, cmp) {
      forall k, m | lo <= k < m < hi
        ensures cmp(u[k], u[m]) <= 0
      {
        if !(m < i) && !(j <= k) {
          assert cmp(u[k], v) <= 0 && cmp(v, u[m]) <= 0;
        }
      }
    }
  }

  /** When the start rotation fits, the sort succeeds exactly when both parts are sorted. */
  lemma PartsFit<T(!new)>(r: Parted<T>, t: seq<T>, u: seq<T>, lo: nat, n: nat, v: T, cmp: (T, T) -> int)
    requires lo + n <= |r.s| && r.smaller + r.larger <= n && Comparator(cmp) && Shape(r, lo, n, v, cmp)
    requires Shuffled(r.s, t, lo, lo + r.smaller) && Shuffled(t, u, lo + n - r.larger, lo + n)
    requires r.smaller == 0 || r.atStart <= r.smaller
    ensures Sorted(u, lo, lo + n, cmp)
       <==> Sorted(t, lo, lo + r.smaller, cmp) && Sorted(u, lo + n - r.larger, lo + n, cmp)
  {
    hide Shuffled, Sorted, Comparator;
    var hi, i, j := lo + n, lo + r.smaller, lo + n - r.larger;
    SameLength(r.s, t, lo, i);
    SameLength(t, u, j, hi);
    Groups(r.s, t, u, lo, i, j, hi, v, cmp);
    ThreeGroups(u, lo, i, j, hi, v, cmp);
    SortedAlike(t, u, j, hi, lo, i, cmp);
  }

  lemma Groups<T>(s: seq<T>, t: seq<T>, u: seq<T>, lo: nat, i: nat, j: nat, hi: nat, v: T, cmp: (T, T) -> int)
    requires lo <= i <= j <= hi <= |s| && Shuffled(s, t, lo, i) && Shuffled(t, u, j, hi)
    requires All(s, lo, i, v, cmp, -1) && All(s, i, j, v, cmp, 0) && All(s, j, hi, v, cmp, 1)
    ensures All(u, lo, i, v, cmp, -1) && All(u, i, j, v, cmp, 0) && All(u, j, hi, v, cmp, 1)
  {
    hide All, Shuffled;
    SameLength(s, t, lo, i);
    AllKept(s, t, lo, i, v, cmp, -1);
    AllOutside(s, t, lo, i, i, j, v, cmp, 0);
    AllOutside(s, t, lo, i, j, hi, v, cmp, 1);
    AllOutside(t, u, j, hi, lo, i, v, cmp, -1);
    AllOutside(t, u, j, hi, i, j, v, cmp, 0);
    AllKept(t, u, j, hi, v, cmp, 1);
  }

  lemma SameLength<T>(s: seq<T>, t: seq<T>, lo: nat, hi: nat)
    requires Shuffled(s, t, lo, hi)
    ensures |s| == |t|
  {
  }

  /** When it does not fit, a key equal to the pivot stays among the smaller ones, and a smaller one
      stays behind it: the parts are sorted apart, so the whole is not. */
  lemma PartsOverrun<T(!new)>(r: Parted<T>, t: seq<T>, u: seq<T>, lo: nat, n: nat, v: T, cmp: (T, T) -> int)
    requires lo + n <= |r.s| && r.smaller + r.larger <= n && Comparator(cmp) && Shape(r, lo, n, v, cmp)
    requires Shuffled(r.s, t, lo, lo + r.smaller) && Shuffled(t, u, lo + n - r.larger, lo + n)
    requires 0 < r.smaller < r.atStart
    ensures !Sorted(u, lo, lo + n, cmp)
  {
    var k := StillThere(t, r.s, lo, lo + r.smaller, lo);
    var m := lo + r.atStart - 1;
    assert cmp(u[k], v) == 0 && cmp(u[m], v) < 0;
    AboveSmaller(u[k], u[m], v, cmp);
  }

  lemma AboveSmaller<T(!new)>(x: T, y: T, v: T, cmp: (T, T) -> int)
    requires Comparator(cmp) && cmp(x, v) == 0 && cmp(y, v) < 0
    ensures cmp(x, y) > 0
  {
    assert cmp(v, x) <= 0 && cmp(v, y) > 0;
    assert cmp(x, y) <= 0 ==> cmp(v, y) <= 0;
  }

  /** The result is sorted if and only if every start rotation fits. */
  lemma {:induction false} SortedIffRotationsFit<T(!new)>(s: seq<T>, lo: nat, n: nat, cmp: (T, T) -> int)
    requires lo + n <= |s| && Comparator(cmp)
    ensures Sorted(Sort(s, lo, n, cmp), lo, lo + n, cmp) <==> RotationsFit(s, lo, n, cmp)
    decreases n
  {
    hide Parting, Shape, Shuffled, Sorted, Comparator, InsertionSort;
    if n < 7 {
      InsertionSorts(s, lo, n, cmp);
    } else {
      var hi, r := lo + n, Parting(s, lo, n, cmp);
      var v := PartingShape(s, lo, n, cmp);
      SortStep(s, lo, n, cmp);
      SortShuffles(r.s, lo, r.smaller, cmp);
      var t := Sort(r.s, lo, r.smaller, cmp);
      SortShuffles(t, hi - r.larger, r.larger, cmp);
      if r.smaller == 0 || r.atStart <= r.smaller {
        PartsFit(r, t, Sort(s, lo, n, cmp), lo, n, v, cmp);
        SortedIffRotationsFit(r.s, lo, r.smaller, cmp);
        SortedIffRotationsFit(t, hi - r.larger, r.larger, cmp);
      } else {
        PartsOverrun(r, t, Sort(s, lo, n, cmp), lo, n, v, cmp);
      }
    }
  }

  // ----- distinct keys

  lemma Occurrence<T>(s: seq<T>, i: nat)
    requires i < |s|
    ensures multiset(s) == multiset(s[..i] + s[i + 1..]) + multiset{s[i]}
  {
    assert s == s[..i] + [s[i]] + s[i + 1..];
  }

  lemma Twice<T>(s: seq<T>, i: nat, j: nat)
    requires i < j < |s| && s[i] == s[j]
    ensures multiset(s)[s[i]] >= 2
  {
    Occurrence(s, i);
    assert (s[..i] + s[i + 1..])[j - 1] == s[i];
    assert s[i] in multiset(s[..i] + s[i + 1..]);
  }

  lemma TwiceAt<T>(s: seq<T>, x: T) returns (i: nat, j: nat)
    requires multiset(s)[x] >= 2
    ensures i < j < |s| && s[i] == s[j] == x
  {
    assert x in s;
    i :| i < |s| && s[i] == x;
    Occurrence(s, i);
    var t := s[..i] + s[i + 1..];
    assert x in multiset(t);
    var m :| 0 <= m < |t| && t[m] == x;
    j := if m < i then m else m + 1;
    if j < i {
      i, j := j, i;
    }
  }

  lemma DistinctAfter<T(!new)>(before: seq<T>, after: seq<T>, lo: nat, hi: nat, i: nat, j: nat, cmp: (T, T) -> int)
    requires Shuffled(before, after, lo, hi) && lo <= i < j < hi <= |before| && Comparator(cmp)
    requires DistinctKeys(before, lo, hi, cmp)
    ensures cmp(after[i], after[j]) != 0
  {
    hide Comparator;
    var k := StillThere(before, after, lo, hi, i);
    var m := StillThere(before, after, lo, hi, j);
    if after[i] == after[j] {
      SamePart(before, after, lo, hi);
      Twice(after[lo..hi], i - lo, j - lo);
      k, m := TwiceAt(before[lo..hi], after[i]);
      assert before[lo + k] == before[lo + m] == after[i];
    } else {
      ZeroBothWays(before[k], before[m], cmp);
    }
  }

  lemma ZeroBothWays<T(!new)>(x: T, y: T, cmp: (T, T) -> int)
    requires Comparator(cmp)
    ensures cmp(x, y) == 0 <==> cmp(y, x) == 0
  {
  }

  lemma ShuffledDistinct<T(!new)>(before: seq<T>, after: seq<T>, lo: nat, hi: nat, cmp: (T, T) -> int)
    requires Shuffled(before, after, lo, hi) && lo <= hi <= |before| == |after| && Comparator(cmp)
    requires DistinctKeys(before, lo, hi, cmp)
    ensures DistinctKeys(after, lo, hi, cmp)
  {
    hide Shuffled, Comparator;
    forall i, j | lo <= i < j < hi
      ensures cmp(after[i], after[j]) != 0
    {
      DistinctAfter(before, after, lo, hi, i, j, cmp);
    }
  }

  lemma EqualKeys<T(!new)>(x: T, y: T, v: T, cmp: (T, T) -> int)
    requires Comparator(cmp) && cmp(x, v) == 0 && cmp(y, v) == 0
    ensures cmp(x, y) == 0
  {
    assert cmp(v, x) == 0 && cmp(v, y) == 0;
    assert cmp(x, y) <= 0 && cmp(y, x) <= 0;
  }

  /** Of distinct keys, only one is equal to the pivot. */
  lemma DistinctFit<T(!new)>(r: Parted<T>, lo: nat, n: nat, v: T, cmp: (T, T) -> int)
    requires lo + n <= |r.s| && r.smaller + r.larger <= n && Comparator(cmp) && Shape(r, lo, n, v, cmp)
    requires DistinctKeys(r.s, lo, lo + n, cmp)
    ensures r.smaller == 0 || r.atStart <= r.smaller
  {
    hide Comparator;
    if 0 < r.smaller < r.atStart {
      EqualKeys(r.s[lo], r.s[lo + r.atStart], v, cmp);
    }
  }

  lemma SubDistinct<T(!new)>(s: seq<T>, t: seq<T>, lo: nat, mid: nat, lo': nat, hi: nat, cmp: (T, T) -> int)
    requires Shuffled(s, t, lo, mid) && lo <= mid <= lo' <= hi <= |s| == |t| && DistinctKeys(s, lo, hi, cmp)
    ensures DistinctKeys(s, lo, mid, cmp) && DistinctKeys(t, lo', hi, cmp)
  {
  }

  lemma {:induction false} DistinctRotationsFit<T(!new)>(s: seq<T>, lo: nat, n: nat, cmp: (T, T) -> int)
    requires lo + n <= |s| && Comparator(cmp) && DistinctKeys(s, lo, lo + n, cmp)
    ensures RotationsFit(s, lo, n, cmp)
    decreases n
  {
    hide Parting, Shape, Shuffled, DistinctKeys, Comparator, Sort;
    if n >= 7 {
      var hi, r := lo + n, Parting(s, lo, n, cmp);
      var v := PartingShape(s, lo, n, cmp);
      ShuffledDistinct(s, r.s, lo, hi, cmp);
      DistinctFit(r, lo, n, v, cmp);
      var t := Sort(r.s, lo, r.smaller, cmp);
      SortShuffles(r.s, lo, r.smaller, cmp);
      SubDistinct(r.s, t, lo, lo + r.smaller, hi - r.larger, hi, cmp);
      DistinctRotationsFit(r.s, lo, r.smaller, cmp);
      DistinctRotationsFit(t, hi - r.larger, r.larger, cmp);
    }
  }

  /** For pairwise distinct keys, the result is a sorted permutation of that part of the array. */
  lemma SortsDistinctKeys<T(!new)>(s: seq<T>, lo: nat, n: nat, cmp: (T, T) -> int)
    requires lo + n <= |s| && Comparator(cmp) && DistinctKeys(s, lo, lo + n, cmp)
    ensures Sorted(Sort(s, lo, n, cmp), lo, lo + n, cmp) && Shuffled(s, Sort(s, lo, n, cmp), lo, lo + n)
  {
    DistinctRotationsFit(s, lo, n, cmp);
    SortedIffRotationsFit(s, lo, n, cmp);
    SortShuffles(s, lo, n, cmp);
  }

  // ----- equal keys

  function ByValue(x: int, y: int): int {
    x - y
  }

  lemma ByValueCompares()
    ensures Comparator(ByValue)
  {
  }

  /** Seven keys: three equal to the pivot, the one at 3, one smaller, three larger. */
  ghost predicate Example(s: seq<int>) {
    |s| == 7 && s[0] == s[1] == s[3] == 1 && s[2] == 0 && s[4] == s[5] == s[6] == 2
  }

  /** The same after the first scan. */
  ghost predicate Scanned(t: seq<int>) {
    |t| == 7 && t[0] == t[1] == t[2] == 1 && t[3] == 0 && t[4] == t[5] == t[6] == 2
  }

  lemma ExampleSwaps(s: seq<int>)
    requires Example(s)
    ensures Swapped(s, 0, 0) == s && Swapped(s, 1, 1) == s && Scanned(Swapped(s, 2, 3))
  {
  }

  lemma ExampleUp(s: seq<int>)
    requires Example(s)
    ensures ScanUp(Part(s, 0, 0, 6, 6), 0, 7, 1, ByValue) == Part(Swapped(s, 2, 3), 3, 4, 6, 6)
  {
    hide Swapped, ScanUp;
    ExampleSwaps(s);
    ScanUpStep(Part(Swapped(s, 2, 3), 3, 4, 6, 6), 0, 7, 1, ByValue);
    ScanUpStep(Part(s, 2, 3, 6, 6), 0, 7, 1, ByValue);
    ScanUpStep(Part(s, 2, 2, 6, 6), 0, 7, 1, ByValue);
    ScanUpStep(Part(s, 1, 1, 6, 6), 0, 7, 1, ByValue);
    ScanUpStep(Part(s, 0, 0, 6, 6), 0, 7, 1, ByValue);
  }

  lemma ExampleDown(t: seq<int>)
    requires Scanned(t)
    ensures ScanDown(Part(t, 3, 4, 6, 6), 0, 7, 1, ByValue) == Part(t, 3, 4, 3, 6)
  {
    hide Swapped, ScanDown;
    ScanDownStep(Part(t, 3, 4, 3, 6), 0, 7, 1, ByValue);
    ScanDownStep(Part(t, 3, 4, 4, 6), 0, 7, 1, ByValue);
    ScanDownStep(Part(t, 3, 4, 5, 6), 0, 7, 1, ByValue);
    ScanDownStep(Part(t, 3, 4, 6, 6), 0, 7, 1, ByValue);
  }

  lemma ExampleParting(s: seq<int>)
    requires Comparator(ByValue) && Example(s)
    ensures Parting(s, 0, 7, ByValue).smaller == 1 && Parting(s, 0, 7, ByValue).atStart == 3
  {
    hide ScanUp, ScanDown, Rotated, Swapped, Split, Comparator;
    ExampleSwaps(s);
    ExampleUp(s);
    ExampleDown(Swapped(s, 2, 3));
    SplitStep(AllUnsplit(s, 0, 7), 0, 7, 1, ByValue);
  }

  /** With equal keys, the sort can fail: here three keys equal to the pivot overrun one smaller key. */
  lemma EqualKeysCanFail()
    ensures Comparator(ByValue) && !Sorted(Sort([1, 1, 0, 1, 2, 2, 2], 0, 7, ByValue), 0, 7, ByValue)
  {
    hide Parting, Sort, Comparator, Sorted;
    ByValueCompares();
    ExampleParting([1, 1, 0, 1, 2, 2, 2]);
    SortedIffRotationsFit([1, 1, 0, 1, 2, 2, 2], 0, 7, ByValue);
  }
}
