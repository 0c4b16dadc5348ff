/** What an access means to a cache, byte by byte: which memory blocks it holds a byte of, where those
    go under either mapping, and when they count as misses. */
module AccessBytes {
  import opened Words
  import opened SetCache
  import opened CacheModel
  import opened Hierarchy

  predicate ByteOf(a: Access, x: nat) {
    a.addr <= x < a.addr + a.size
  }

  /** Block b is the lineSize bytes from b * lineSize on. */
  predicate InBlock(g: Geometry, x: nat, b: nat) {
    b * g.LineSize() <= x < b * g.LineSize() + g.LineSize()
  }

  /** The access has a byte in block b. */
  ghost predicate Reaches(g: Geometry, a: Access, b: nat) {
    exists x: nat :: ByteOf(a, x) && InBlock(g, x, b)
  }

  /** An access of at least one byte that does not run over the end of the address space. */
  predicate Proper(a: Access) {
    a.size > 0 && a.addr + a.size <= WORD
  }

  lemma BlockOfByte(g: Geometry, x: nat, b: nat)
    ensures InBlock(g, x, b) <==> Block(g, x) == b
  {
    var l := g.LineSize();
    QuotRem(x, l);
    if InBlock(g, x, b) {
      RemUnique(x, l, b, x - b * l);
    }
  }

  lemma ReachesBetween(g: Geometry, a: Access, b: nat)
    requires a.size > 0
    ensures Reaches(g, a, b) <==> Block(g, a.addr) <= b <= Block(g, a.addr + a.size - 1)
  {
    hide Block, InBlock;
    var lo, hi := Block(g, a.addr), Block(g, a.addr + a.size - 1);
    BlockOfByte(g, a.addr, lo);
    BlockOfByte(g, a.addr + a.size - 1, hi);
    if lo <= b <= hi {
      var x := if lo == b then a.addr else b * g.LineSize();
      StartBetween(g, a.addr, a.addr + a.size - 1, lo, hi, b);
      assert ByteOf(a, x) && InBlock(g, x, b);
    }
    if x: nat :| ByteOf(a, x) && InBlock(g, x, b) {
      BlocksInOrder(g, a.addr, x, lo, b);
      BlocksInOrder(g, x, a.addr + a.size - 1, b, hi);
    }
  }

  lemma BlocksInOrder(g: Geometry, x: nat, y: nat, b: nat, c: nat)
    requires x <= y && InBlock(g, x, b) && InBlock(g, y, c)
    ensures b <= c
  {
    if c < b { MulUp(c + 1, b, g.LineSize()); MulUp(c, c, g.LineSize()); }
  }

  /** A block between those of x and y begins between x and y. */
  lemma StartBetween(g: Geometry, x: nat, y: nat, lo: nat, hi: nat, b: nat)
    requires InBlock(g, x, lo) && InBlock(g, y, hi) && lo <= b <= hi && x <= y
    ensures b > lo ==> x <= b * g.LineSize() <= y && InBlock(g, b * g.LineSize(), b)
  {
    MulUp(b, hi, g.LineSize());
    if lo < b { MulUp(lo + 1, b, g.LineSize()); MulUp(lo, lo, g.LineSize()); }
  }

  lemma MulUp(x: nat, y: nat, l: nat)
    requires x <= y
    ensures x * l <= y * l && (x + 1) * l == x * l + l
  {
  }

  lemma LastByteIs(a: Access)
    requires Proper(a)
    ensures LastByte(a) == a.addr + a.size - 1
  {
  }

  /** The places are the blocks the access has a byte in, in increasing order, each in the set of its
      number; there are none exactly when it reaches more than two. */
  lemma PlacesAreBlocks(g: Geometry, a: Access)
    requires Proper(a)
    ensures Places(g, a).None? <==> exists b: nat, c: nat, d: nat :: b < c < d && Reaches(g, a, b) && Reaches(g, a, c) && Reaches(g, a, d)
    ensures Places(g, a).Some? ==>
              var ps := Places(g, a).value;
              && (forall b: nat :: Reaches(g, a, b) <==> exists k :: 0 <= k < |ps| && ps[k].tag == b)
              && (forall i, k :: 0 <= i < k < |ps| ==> ps[i].tag < ps[k].tag)
              && (forall k :: 0 <= k < |ps| ==> ps[k].setNo == ps[k].tag % g.Sets())
  {
    hide Reaches, Block;
    var lo, hi := Block(g, a.addr), Block(g, a.addr + a.size - 1);
    LastByteIs(a);
    forall b: nat
      ensures Reaches(g, a, b) <==> lo <= b <= hi
    {
      ReachesBetween(g, a, b);
    }
    assert lo <= hi by { BlocksOrdered(g, a.addr, a.addr + a.size - 1); }
    if Places(g, a).Some? {
      var ps := Places(g, a).value;
      assert ps[0].tag == lo && ps[|ps| - 1].tag == hi;
    } else {
      assert Reaches(g, a, lo) && Reaches(g, a, lo + 1) && Reaches(g, a, lo + 2);
    }
  }

  lemma BlocksOrdered(g: Geometry, x: nat, y: nat)
    requires x <= y
    ensures Block(g, x) <= Block(g, y)
  {
    ReachesBetween(g, Access(x, y - x + 1), Block(g, y));
    BlockOfByte(g, y, Block(g, y));
    assert ByteOf(Access(x, y - x + 1), y);
  }

  ghost predicate Spans(g: Geometry, a: Access, lo: nat, hi: nat) {
    forall b: nat :: Reaches(g, a, b) <==> lo <= b <= hi
  }

  /** The masked simulators decide by the set numbers of the lowest and the highest block. */
  lemma MaskedPlacesAreBlocks(g: Geometry, a: Access, lo: nat, hi: nat)
    requires Proper(a) && lo <= hi && Spans(g, a, lo, hi)
    ensures var s, s' := lo % g.Sets(), hi % g.Sets();
            match MaskedPlaces(g, a)
            case Some(ps) =>
              && (|ps| == if s == s' then 1 else 2)
              && ps[0].setNo == s && (|ps| == 2 ==> ps[1].setNo == s' == (s + 1) % g.Sets())
            case None => s != s' && (s + 1) % g.Sets() != s'
  {
    hide Reaches;
    SpanEnds(g, a, lo, hi);
    LastByteIs(a);
  }

  lemma SpanEnds(g: Geometry, a: Access, lo: nat, hi: nat)
    requires Proper(a) && lo <= hi && Spans(g, a, lo, hi)
    ensures Block(g, a.addr) == lo && Block(g, a.addr + a.size - 1) == hi
  {
    hide Reaches, Block;
    var x, y := Block(g, a.addr), Block(g, a.addr + a.size - 1);
    BlocksOrdered(g, a.addr, a.addr + a.size - 1);
    ReachesBetween(g, a, x);
    ReachesBetween(g, a, y);
    ReachesBetween(g, a, lo);
    ReachesBetween(g, a, hi);
  }

  /** So an access that the plain simulator accepts goes to the same sets under both mappings, unless it
      straddles two lines of a single set. */
  lemma SameSets(g: Geometry, a: Access)
    requires Proper(a) && Places(g, a).Some?
    ensures MaskedPlaces(g, a).Some?
    ensures var ps, qs := Places(g, a).value, MaskedPlaces(g, a).value;
            && |qs| == (if g.setBits == 0 then 1 else |ps|)
            && forall k :: 0 <= k < |qs| ==> qs[k].setNo == ps[k].setNo
  {
    LastByteIs(a);
    if g.setBits > 0 {
      NextSet(g, Block(g, a.addr));
    }
  }

  /** The masked tag of an address is the start of its aligned part of 2^tag_shift bytes, in 32 bits. */
  lemma MaskedIsAligned(g: Geometry, addr: nat)
    requires g.TagShift() < 32
    ensures var t := Pow2(g.TagShift());
            && Masked(g, addr) % t == 0 && Masked(g, addr) <= addr % UINT < Masked(g, addr) + t
  {
    var x, t := Rem(addr, UINT), Pow2(g.TagShift());
    QuotRem(x, t);
    RemUnique(Masked(g, addr), t, Quot(x, t), 0);
  }

  /** Bytes of one line have the same masked tag. */
  lemma MaskedOfLine(g: Geometry, x: nat, y: nat, b: nat)
    requires g.TagShift() < 32 && InBlock(g, x, b) && InBlock(g, y, b)
    ensures Masked(g, x) == Masked(g, y)
  {
    hide Masked, Block;
    BlockOfByte(g, x, b);
    BlockOfByte(g, y, b);
    MaskedIsTagOf(g, x);
    MaskedIsTagOf(g, y);
  }

  // ----- what counts as a miss

  /** The cache when the turn of block b comes: the block below it may have been referenced just before. */
  ghost function AtTurn(g: Geometry, c: Tags, a: Access, b: nat): Tags
    requires Matches(g, c)
  {
    if b > 0 && Reaches(g, a, b - 1) then Refer(c, g.assoc, Place((b - 1) % g.Sets(), b - 1)) else c
  }

  /** Some block of the access is not resident when its turn comes. */
  ghost predicate SomeMiss(g: Geometry, c: Tags, a: Access)
    requires Matches(g, c)
  {
    exists b: nat :: Reaches(g, a, b) && b !in AtTurn(g, c, a, b)[b % g.Sets()]
  }

  lemma MissesOfSpan(g: Geometry, c: Tags, a: Access, lo: nat, hi: nat)
    requires Matches(g, c) && lo <= hi <= lo + 1 && Spans(g, a, lo, hi)
    ensures SomeMiss(g, c, a) <==>
              || lo !in c[lo % g.Sets()]
              || (hi == lo + 1 && hi !in Refer(c, g.assoc, Place(lo % g.Sets(), lo))[hi % g.Sets()])
  {
    hide Reaches, Refer;
    assert Reaches(g, a, lo) && Reaches(g, a, hi) && (lo > 0 ==> !Reaches(g, a, lo - 1));
    assert AtTurn(g, c, a, lo) == c;
    assert hi == lo + 1 ==> AtTurn(g, c, a, hi) == Refer(c, g.assoc, Place(lo % g.Sets(), lo));
  }

  lemma MissesIff(g: Geometry, c: Tags, a: Access)
    requires Matches(g, c) && Proper(a) && Places(g, a).Some?
    ensures Ref(c, g.assoc, Places(g, a)).0 == if SomeMiss(g, c, a) then Miss else Hit
  {
    hide Reaches, Refer, SomeMiss, AllHit, ReferAll;
    PlacesSpan(g, a);
    var ps := Places(g, a).value;
    MissesOfSpan(g, c, a, ps[0].tag, ps[|ps| - 1].tag);
    if |ps| == 1 {
      assert ps == [ps[0]];
      ReferOne(c, g.assoc, ps[0]);
    } else {
      assert ps == [ps[0], ps[1]];
      ReferTwo(c, g.assoc, ps[0], ps[1]);
    }
  }

  lemma PlacesSpan(g: Geometry, a: Access)
    requires Proper(a) && Places(g, a).Some?
    ensures var ps := Places(g, a).value;
            && 1 <= |ps| <= 2 && (|ps| == 2 ==> ps[1].tag == ps[0].tag + 1)
            && (forall k :: 0 <= k < |ps| ==> ps[k] == Place(ps[k].tag % g.Sets(), ps[k].tag))
            && Spans(g, a, ps[0].tag, ps[|ps| - 1].tag)
  {
    hide Reaches, Block;
    LastByteIs(a);
    forall b: nat
      ensures Reaches(g, a, b) <==> Block(g, a.addr) <= b <= Block(g, a.addr + a.size - 1)
    {
      ReachesBetween(g, a, b);
    }
  }

  /** The counters of an access that finishes: a first-level miss when some block of it misses there, a
      last-level miss when, besides, some block of it misses there. */
  lemma DoRefCounts(g: Geometry, G: Geometry, l1: Tags, ll: Tags, a: Access)
    requires Matches(g, l1) && Matches(G, ll) && Proper(a) && DoRef(g, G, l1, ll, a).Done?
    ensures var e := DoRef(g, G, l1, ll, a);
            && e.m1 == (if SomeMiss(g, l1, a) then 1 else 0)
            && e.mL == (if SomeMiss(g, l1, a) && SomeMiss(G, ll, a) then 1 else 0)
            && (!SomeMiss(g, l1, a) ==> e.ll == ll)
  {
    hide SomeMiss;
    MissesIff(g, l1, a);
    if SomeMiss(g, l1, a) {
      MissesIff(G, ll, a);
    }
  }

  /** The special fetch is chosen exactly for instructions that lie in one line, when the lines of both
      levels have the same size. */
  lemma NoXIffOneLine(g: Geometry, G: Geometry, a: Access)
    requires Proper(a)
    ensures IsIrNoX(g, G, a) <==>
              g.lineBits == G.lineBits && forall b: nat, c: nat :: Reaches(g, a, b) && Reaches(g, a, c) ==> b == c
  {
    hide Reaches, Block;
    LastByteIs(a);
    var lo, hi := Block(g, a.addr), Block(g, a.addr + a.size - 1);
    BlocksOrdered(g, a.addr, a.addr + a.size - 1);
    ReachesBetween(g, a, lo);
    ReachesBetween(g, a, hi);
    forall b: nat
      ensures Reaches(g, a, b) <==> lo <= b <= hi
    {
      ReachesBetween(g, a, b);
    }
  }
}
