/** cachegrind/cg_sim.c: the plain set-associative LRU cache over one flat array of tags. */
module CacheSim {
  import opened Words
  import opened Lru
  import opened SetCache
  import opened SetArray
  import opened CacheModel
  import opened Hierarchy

  /** VG_(log2): the exponent of a power of two below 2^32, otherwise -1. */
  method Log2(x: nat) returns (k: int)
    ensures k == -1 || (0 <= k < 32 && Pow2(k) == x)
    ensures k == -1 ==> forall i: nat :: i < 32 ==> Pow2(i) != x
  {
    var i := 0;
    while i < 32
      invariant 0 <= i <= 32
      invariant forall j: nat :: j < i ==> Pow2(j) != x
    {
      if Pow2(i) == x {
        return i;
      }
      i := i + 1;
    }
    return -1;
  }

  /** g is the geometry of a cache of the given size, associativity and line size, all in range. */
  predicate Describes(g: Geometry, size: nat, assoc: nat, lineSize: nat) {
    && g.Usable()
    && g.assoc == assoc
    && 4 <= g.lineBits < 32 && g.setBits < 32
    && lineSize == g.LineSize()
    && size == g.Sets() * (assoc * lineSize)
  }

  lemma DescribedLine(g: Geometry, size: nat, assoc: nat, lineSize: nat)
    requires Describes(g, size, assoc, lineSize)
    ensures lineSize >= 16 && assoc > 0 && lineSize * assoc > 0 && g.Sets() >= 1
  {
    assert Pow2(4) == 16;
    if g.lineBits > 4 { Pow2Grows(4, g.lineBits); }
    MulPositive(lineSize, assoc);
  }

  lemma DescribedDivides(g: Geometry, size: nat, assoc: nat, lineSize: nat)
    requires Describes(g, size, assoc, lineSize) && lineSize > 0 && assoc > 0 && lineSize * assoc > 0
    ensures size % (lineSize * assoc) == 0 && size / lineSize / assoc == g.Sets()
    ensures size / lineSize == g.Sets() * assoc
  {
    hide Pow2;
    var n := g.Sets();
    RemUnique(size, lineSize * assoc, n, 0);
    QuotOfQuot(size, lineSize, assoc);
    assert size == n * assoc * lineSize by { MulSwap(n, assoc, lineSize); }
    RemUnique(size, lineSize, n * assoc, 0);
  }

  /** Two sets or two ways are more than one line. */
  lemma DescribedIsLarge(g: Geometry, size: nat, assoc: nat, lineSize: nat)
    requires Describes(g, size, assoc, lineSize) && lineSize > 0 && assoc > 0
    ensures size > lineSize && assoc <= g.Sets() * assoc
  {
    var n := g.Sets();
    if g.setBits > 0 { Pow2Grows(0, g.setBits); }
    hide Pow2;
    assert n >= 1 && (n >= 2 || assoc >= 2);
    TwoAtLeast(n, assoc);
    assert size == n * assoc * lineSize by { MulSwap(n, assoc, lineSize); }
    MulOver(n * assoc, lineSize);
  }

  lemma TwoAtLeast(n: nat, assoc: nat)
    requires n >= 1 && assoc >= 1 && (n >= 2 || assoc >= 2)
    ensures n * assoc >= 2 && n * assoc >= assoc
  {
    assert (n - 1) * assoc >= 0;
    if n >= 2 {
      assert (n - 2) * assoc >= 0;
    }
  }

  lemma MulOver(x: nat, y: nat)
    requires x >= 2 && y > 0
    ensures x * y > y
  {
    assert (x - 2) * y >= 0;
  }

  /** What the checks of check_cache say of a configuration that fits a geometry ... */
  lemma DescribedPasses(g: Geometry, size: nat, assoc: nat, lineSize: nat)
    requires Describes(g, size, assoc, lineSize)
    ensures lineSize >= 16 && assoc > 0 && lineSize * assoc > 0
    ensures size % (lineSize * assoc) == 0 && size / lineSize / assoc == g.Sets()
    ensures size > lineSize && assoc <= size / lineSize
  {
    hide Pow2, Describes;
    DescribedLine(g, size, assoc, lineSize);
    DescribedDivides(g, size, assoc, lineSize);
    DescribedIsLarge(g, size, assoc, lineSize);
  }

  /** ... and of one that passes them. */
  lemma PassedIsDescribed(g: Geometry, size: nat, assoc: nat, lineSize: nat)
    requires lineSize >= 16 && assoc > 0 && lineSize == g.LineSize() && g.lineBits < 32 && g.setBits < 32
    requires lineSize * assoc > 0 && size % (lineSize * assoc) == 0 && size / lineSize / assoc == g.Sets()
    requires size > lineSize && g.assoc == assoc
    ensures Describes(g, size, assoc, lineSize)
  {
    assert Pow2(4) == 16;
    if g.lineBits < 4 { Pow2Grows(g.lineBits, 4); }
    QuotOfQuot(size, lineSize, assoc);
    QuotRem(size, lineSize * assoc);
  }

  ghost predicate PowerOfSets(size: nat, line: nat) {
    exists k: nat :: k < 32 && size == line * Pow2(k)
  }

  lemma PowerPasses(size: nat, assoc: nat, lineSize: nat, k: nat)
    requires lineSize > 0 && assoc > 0 && size == lineSize * assoc * Pow2(k)
    ensures lineSize * assoc > 0 && size % (lineSize * assoc) == 0 && size / lineSize / assoc == Pow2(k)
  {
    hide Pow2;
    MulPositive(lineSize, assoc);
    assert size == Pow2(k) * (lineSize * assoc);
    RemUnique(size, lineSize * assoc, Pow2(k), 0);
    QuotOfQuot(size, lineSize, assoc);
  }

  /** The size is not that of a power of two of sets. */
  lemma SetCountIsWrong(size: nat, assoc: nat, lineSize: nat)
    requires lineSize > 0 && assoc > 0 && lineSize * assoc > 0
    requires size % (lineSize * assoc) != 0 || forall k: nat :: k < 32 ==> Pow2(k) != size / lineSize / assoc
    ensures !PowerOfSets(size, lineSize * assoc)
  {
    hide Pow2;
    forall k: nat | k < 32 && size == lineSize * assoc * Pow2(k)
      ensures false
    {
      PowerPasses(size, assoc, lineSize, k);
    }
  }

  datatype CacheError = NoError | ZeroLineSize | ZeroAssoc | SetCount | LinePower | LineTooSmall | SizeTooSmall | AssocTooLarge

  /** check_cache (cg_arch.c): accepts exactly the configurations the simulator can represent. */
  method CheckCache(size: nat, assoc: nat, lineSize: nat) returns (err: CacheError)
    ensures err == NoError <==> exists g :: Describes(g, size, assoc, lineSize)
    ensures err == ZeroLineSize <==> lineSize == 0
    ensures err == ZeroAssoc <==> lineSize > 0 && assoc == 0
    ensures err == LinePower ==> lineSize > 0 && forall k: nat :: k < 32 ==> lineSize != Pow2(k)
    ensures err == LineTooSmall ==> lineSize < 16 && exists k: nat :: lineSize == Pow2(k)
    ensures err == SizeTooSmall ==> 16 <= lineSize && size <= lineSize
    ensures err == AssocTooLarge ==> 0 < lineSize < size && assoc > size / lineSize
    ensures err == SetCount ==> lineSize * assoc > 0 && !PowerOfSets(size, lineSize * assoc)
  {
    hide Pow2, PowerOfSets;
    forall g | Describes(g, size, assoc, lineSize) {
      DescribedPasses(g, size, assoc, lineSize);
    }
    if lineSize == 0 {
      return ZeroLineSize;
    }
    if assoc == 0 {
      return ZeroAssoc;
    }
    MulPositive(lineSize, assoc);
    var setBits := Log2(size / lineSize / assoc);
    if size % (lineSize * assoc) != 0 || setBits == -1 {
      SetCountIsWrong(size, assoc, lineSize);
      return SetCount;
    }
    var lineBits := Log2(lineSize);
    if lineBits == -1 {
      return LinePower;
    }
    if lineSize < 16 {
      return LineTooSmall;
    }
    if size <= lineSize {
      return SizeTooSmall;
    }
    PassedIsDescribed(Geometry(assoc, setBits, lineBits), size, assoc, lineSize);
    DescribedPasses(Geometry(assoc, setBits, lineBits), size, assoc, lineSize);
    if assoc > size / lineSize {
      return AssocTooLarge;
    }
    return NoError;
  }

  class Cache {
    const size: nat
    const assoc: nat
    const lineSize: nat
    const sets: nat
    const lineSizeBits: nat
    const tagShift: nat
    const tags: array<nat>

    ghost function Geo(): Geometry {
      Geometry(assoc, if tagShift < lineSizeBits then 0 else tagShift - lineSizeBits, lineSizeBits)
    }

    ghost predicate Valid() {
      && Geo().Usable()
      && lineSizeBits <= tagShift
      && sets == Geo().Sets()
      && tags.Length == sets * assoc
    }

    ghost function Contents(): (c: Tags)
      requires Valid()
      reads tags
      ensures Fits(c, assoc) && |c| == sets
    {
      Rows(tags[..], sets, assoc)
    }

    /** cachesim_initcache: every tag starts as 0. */
    constructor (size: nat, assoc: nat, lineSize: nat, ghost g: Geometry)
      requires Describes(g, size, assoc, lineSize)
      ensures Valid() && Geo() == g && Contents() == Cold(g)
      ensures fresh(tags)
    {
      DescribedPasses(g, size, assoc, lineSize);
      var sets := size / lineSize / assoc;
      var lineSizeBits := Log2(lineSize);
      var setBits := Log2(sets);
      if lineSizeBits != -1 { Pow2Injective(lineSizeBits, g.lineBits); }
      if setBits != -1 { Pow2Injective(setBits, g.setBits); }
      this.size, this.assoc, this.lineSize := size, assoc, lineSize;
      this.sets, this.lineSizeBits, this.tagShift := sets, lineSizeBits, lineSizeBits + setBits;
      tags := new nat[sets * assoc];
      new;
      var i := 0;
      while i < tags.Length
        invariant 0 <= i <= tags.Length
        invariant forall k :: 0 <= k < i ==> tags[k] == 0
      {
        tags[i] := 0;
        i := i + 1;
      }
      RowsOfZeros(tags[..], sets, assoc);
    }

    /** cachesim_setref_is_miss. */
    method SetRefIsMiss(setNo: nat, tag: nat) returns (miss: bool)
      requires Valid() && setNo < sets
      modifies tags
      ensures Contents() == Refer(old(Contents()), assoc, Place(setNo, tag))
      ensures miss == !Resident(old(Contents()), Place(setNo, tag))
    {
      hide Rows, Touch;
      RowEntries(tags[..], sets, assoc, setNo);
      var base := setNo * assoc;
      ghost var w := Contents()[setNo];
      if tag == tags[base] {
        TouchAgain(w, tag);
        return false;
      }
      var i := 1;
      while i < assoc
        invariant 1 <= i <= assoc
        invariant forall k :: 0 <= k < i ==> w[k] != tag
      {
        assert w[i] == tags[base + i];
        if tag == tags[base + i] {
          IndexOfIs(w, tag, i);
          Shift(setNo, i, tag);
          return false;
        }
        i := i + 1;
      }
      Shift(setNo, assoc - 1, tag);
      return true;
    }

    /** The shuffle at the end of a reference: way i moves to the front as tag. */
    method Shift(setNo: nat, i: nat, tag: nat)
      requires Valid() && setNo < sets && i < assoc
      requires i == Victim(Contents()[setNo], tag)
      modifies tags
      ensures Contents() == Refer(old(Contents()), assoc, Place(setNo, tag))
    {
      RowBound(setNo, sets, assoc);
      ghost var t := tags[..];
      Install(tags, setNo * assoc, i, tag);
      InstallRow(t, tags[..], sets, assoc, setNo, i, tag);
    }

    /** cachesim_ref_is_miss. */
    method RefIsMiss(a: nat, size: nat) returns (o: Outcome)
      requires Valid()
      modifies tags
      ensures (o, Contents()) == Ref(old(Contents()), assoc, Places(Geo(), Access(a, size)))
    {
      var block1 := Shr(a, lineSizeBits);
      var block2 := Shr((a + size - 1) % WORD, lineSizeBits);
      var set1 := Rem(block1, sets);
      if block1 == block2 {
        ReferOne(Contents(), assoc, Place(set1, block1));
        var miss := SetRefIsMiss(set1, block1);
        return if miss then Miss else Hit;
      } else if block1 + 1 == block2 {
        var set2 := Rem(block2, sets);
        ReferTwo(Contents(), assoc, Place(set1, block1), Place(set2, block2));
        var miss := SetRefIsMiss(set1, block1);
        if miss {
          miss := SetRefIsMiss(set2, block2);
          return Miss;
        }
        miss := SetRefIsMiss(set2, block2);
        return if miss then Miss else Hit;
      }
      return Panic;
    }
  }

  /** A miss counter pair, updated through pointers in the source. */
  class Counter {
    var m1: nat
    var mL: nat
  }

  /** cachesim_I1_doref_Gen and cachesim_D1_doref. */
  method DoRefGen(l1: Cache, ll: Cache, a: nat, size: nat, cc: Counter) returns (ok: bool)
    requires l1.Valid() && ll.Valid() && l1.tags != ll.tags
    modifies l1.tags, ll.tags, cc
    ensures var e := DoRef(l1.Geo(), ll.Geo(), old(l1.Contents()), old(ll.Contents()), Access(a, size));
            && ok == e.Done?
            && (ok ==> (l1.Contents(), ll.Contents()) == (e.l1, e.ll))
            && (ok ==> (cc.m1, cc.mL) == (old(cc.m1) + e.m1, old(cc.mL) + e.mL))
  {
    var o := l1.RefIsMiss(a, size);
    if o == Miss {
      cc.m1 := cc.m1 + 1;
      o := ll.RefIsMiss(a, size);
      if o == Miss {
        cc.mL := cc.mL + 1;
      }
    }
    return o != Panic;
  }

  /** cachesim_I1_doref_NoX. */
  method DoRefNoXAt(l1: Cache, ll: Cache, a: nat, size: nat, cc: Counter)
    requires l1.Valid() && ll.Valid() && l1.tags != ll.tags
    modifies l1.tags, ll.tags, cc
    ensures var e := DoRefNoX(l1.Geo(), ll.Geo(), old(l1.Contents()), old(ll.Contents()), Access(a, size));
            && (l1.Contents(), ll.Contents()) == (e.l1, e.ll)
            && (cc.m1, cc.mL) == (old(cc.m1) + e.m1, old(cc.mL) + e.mL)
  {
    hide Refer, Resident, Rows, Rem;
    var block := Shr(a, l1.lineSizeBits);
    var miss := l1.SetRefIsMiss(Rem(block, l1.sets), block);
    if miss {
      cc.m1 := cc.m1 + 1;
      miss := ll.SetRefIsMiss(Rem(block, ll.sets), block);
      if miss {
        cc.mL := cc.mL + 1;
      }
    }
  }
}
