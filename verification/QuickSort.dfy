/** CLG_(qsort) of callgrind/dump.c in place: every method leaves the array as the function of the same
    name in SortModel or Sorting says. */
module QuickSort {
  import opened SortModel
  import opened Sorting

  method SwapAt<T>(a: array<T>, i: nat, j: nat)
    requires i < a.Length && j < a.Length
    modifies a
    ensures a[..] == Swapped(old(a[..]), i, j)
    ensures forall k :: 0 <= k < a.Length && k != i && k != j ==> a[k] == old(a[k])
  {
    var t := a[i];
    a[i] := a[j];
    a[j] := t;
  }

  /** The first branch: insertion sort on the smallest arrays. */
  method SortSmall<T>(a: array<T>, lo: nat, n: nat, cmp: (T, T) -> int)
    requires lo + n <= a.Length
    modifies a
    ensures a[..] == InsertionSort(old(a[..]), lo, n, cmp)
  {
    hide Swapped;
    var pm := lo + 1;
    while pm < lo + n
      invariant lo + 1 <= pm && (pm <= lo + n || n == 0)
      invariant if n == 0 then a[..] == old(a[..]) else a[..] == Inserted(old(a[..]), lo, pm, cmp)
    {
      var pl := pm;
      while pl > lo && cmp(a[pl - 1], a[pl]) > 0
        invariant lo <= pl <= pm
        invariant Sink(a[..], lo, pl, cmp) == Sink(Inserted(old(a[..]), lo, pm, cmp), lo, pm, cmp)
      {
        SwapAt(a, pl, pl - 1);
        pl := pl - 1;
      }
      pm := pm + 1;
    }
  }

  /** The choice of the pivot; the three medians of large arrays first. */
  method ChoosePivot<T>(a: array<T>, lo: nat, n: nat, cmp: (T, T) -> int) returns (pm: nat)
    requires n >= 7 && lo + n <= a.Length
    ensures pm == Pivot(a[..], lo, n, cmp)
  {
    hide Med3;
    ghost var s := a[..];
    pm := lo + n / 2;
    if n > 7 {
      var pl, pn := lo, lo + n - 1;
      if n > 40 {
        var d := n / 8;
        pl := Med3(a[..], pl, pl + d, pl + 2 * d, cmp);
        pm := Med3(a[..], pm - d, pm, pm + d, cmp);
        pn := Med3(a[..], pn - 2 * d, pn - d, pn, cmp);
      }
      pm := Med3(a[..], pl, pm, pn, cmp);
    }
  }

  /** The partition loop: the part it leaves is the one of Split. */
  method SplitUp<T>(a: array<T>, lo: nat, n: nat, v: T, cmp: (T, T) -> int) returns (pa: int, pb: int, pc: int, pd: int)
    requires n > 0 && lo + n <= a.Length
    modifies a
    ensures Part(a[..], pa, pb, pc, pd) == Split(AllUnsplit(old(a[..]), lo, lo + n), lo, lo + n, v, cmp)
  {
    hide Swapped, ScanUp, ScanDown, Split;
    var hi := lo + n;
    pa, pb, pc, pd := lo, lo, hi - 1, hi - 1;
    ghost var all := Split(AllUnsplit(a[..], lo, hi), lo, hi, v, cmp);
    while true
      invariant InBounds(Part(a[..], pa, pb, pc, pd), lo, hi)
      invariant Split(Part(a[..], pa, pb, pc, pd), lo, hi, v, cmp) == all
      decreases pc - pb
    {
      SplitStep(Part(a[..], pa, pb, pc, pd), lo, hi, v, cmp);
      pa, pb := Up(a, lo, hi, pa, pb, pc, pd, v, cmp);
      pc, pd := Down(a, lo, hi, pa, pb, pc, pd, v, cmp);
      if pb > pc {
        break;
      }
      SwapAt(a, pb, pc);
      pb := pb + 1;
      pc := pc - 1;
    }
  }

  method Up<T>(a: array<T>, lo: nat, hi: nat, pa0: int, pb0: int, pc: int, ghost pd: int, v: T, cmp: (T, T) -> int)
      returns (pa: int, pb: int)
    requires InBounds(Part(a[..], pa0, pb0, pc, pd), lo, hi)
    modifies a
    ensures Part(a[..], pa, pb, pc, pd) == ScanUp(Part(old(a[..]), pa0, pb0, pc, pd), lo, hi, v, cmp)
  {
    hide Swapped, ScanUp;
    pa, pb := pa0, pb0;
    ghost var all := ScanUp(Part(a[..], pa, pb, pc, pd), lo, hi, v, cmp);
    while pb <= pc && cmp(a[pb], v) <= 0
      invariant InBounds(Part(a[..], pa, pb, pc, pd), lo, hi)
      invariant ScanUp(Part(a[..], pa, pb, pc, pd), lo, hi, v, cmp) == all
      decreases pc - pb
    {
      ScanUpStep(Part(a[..], pa, pb, pc, pd), lo, hi, v, cmp);
      if cmp(a[pb], v) == 0 {
        SwapAt(a, pa, pb);
        pa := pa + 1;
      }
      pb := pb + 1;
    }
    ScanUpStep(Part(a[..], pa, pb, pc, pd), lo, hi, v, cmp);
  }

  method Down<T>(a: array<T>, lo: nat, hi: nat, ghost pa: int, pb: int, pc0: int, pd0: int, v: T, cmp: (T, T) -> int)
      returns (pc: int, pd: int)
    requires InBounds(Part(a[..], pa, pb, pc0, pd0), lo, hi)
    requires pb <= pc0 ==> cmp(a[pb], v) > 0
    modifies a
    ensures Part(a[..], pa, pb, pc, pd) == ScanDown(Part(old(a[..]), pa, pb, pc0, pd0), lo, hi, v, cmp)
  {
    hide Swapped, ScanDown;
    pc, pd := pc0, pd0;
    ghost var all := ScanDown(Part(a[..], pa, pb, pc, pd), lo, hi, v, cmp);
    while pb <= pc && cmp(a[pc], v) >= 0
      invariant InBounds(Part(a[..], pa, pb, pc, pd), lo, hi)
      invariant pb <= pc ==> cmp(a[pb], v) > 0
      invariant ScanDown(Part(a[..], pa, pb, pc, pd), lo, hi, v, cmp) == all
      decreases pc - pb
    {
      ScanDownStep(Part(a[..], pa, pb, pc, pd), lo, hi, v, cmp);
      if cmp(a[pc], v) == 0 {
        SwapAt(a, pc, pd);
        pd := pd - 1;
      }
      pc := pc - 1;
    }
    ScanDownStep(Part(a[..], pa, pb, pc, pd), lo, hi, v, cmp);
  }

  /** One rotation: c swaps. */
  method Rotate<T>(a: array<T>, i: nat, j: nat, c: nat)
    requires i <= j && j + c <= a.Length
    modifies a
    ensures a[..] == Rotated(old(a[..]), i, j, c)
  {
    hide Swapped;
    for r := 0 to c
      invariant a[..] == Rotated(old(a[..]), i, j, r)
    {
      SwapAt(a, i + r, j + r);
    }
  }

  /** Sorting from lo on n elements. The result is a permutation of that part; it is sorted exactly when
      every start rotation fits, and so for distinct keys. */
  method Qsort<T(!new)>(a: array<T>, lo: nat, n: nat, cmp: (T, T) -> int)
    requires lo + n <= a.Length && Comparator(cmp)
    modifies a
    ensures a[..] == Sort(old(a[..]), lo, n, cmp)
    decreases n
  {
    hide Comparator, Pivot, Split, Swapped, InsertionSort;
    if n < 7 {
      SortSmall(a, lo, n, cmp);
      return;
    }
    ghost var s := a[..];
    var pm := ChoosePivot(a, lo, n, cmp);
    var v, hi := a[pm], lo + n;
    var pa, pb, pc, pd := SplitUp(a, lo, n, v, cmp);
    ghost var p := Part(a[..], pa, pb, pc, pd);
    pb := pb - 1;
    pc := pc + 1;
    var e := pa - lo;
    if e > 0 {
      Rotate(a, lo, pb + 1 - e, e);
    }
    e := hi - 1 - pd;
    if e > 0 {
      Rotate(a, pc, hi - e, e);
    }
    ghost var r := Parting(s, lo, n, cmp);
    assert r == Gather(p, lo, hi);
    var l, g := pb + 1 - pa, pd + 1 - pc;
    assert a[..] == r.s && l == r.smaller && g == r.larger;
    if l > 1 {
      Qsort(a, lo, l, cmp);
    }
    if g > 1 {
      Qsort(a, hi - g, g, cmp);
    }
  }
}
