/** From addresses to places: the two ways the simulators map an access onto a cache, and what that
    makes of whole streams of accesses.
    cg_sim.c and the plain functions of callgrind/sim.c use the memory block as the tag; the
    write-back and cache-use functions mask the address with tag_mask and compare set numbers. */
module CacheModel {
  import opened Options
  import opened Words
  import opened Lru
  import opened SetCache

  datatype Geometry = Geometry(assoc: nat, setBits: nat, lineBits: nat) {
    function Sets(): (r: nat)
      ensures r > 0
    {
      Pow2(setBits)
    }

    function LineSize(): (r: nat)
      ensures r > 0
    {
      Pow2(lineBits)
    }

    function TagShift(): nat {
      lineBits + setBits
    }

    /** What check_cache leaves: at least one way, and a cache larger than one line. */
    predicate Usable() {
      && assoc > 0
      && (setBits == 0 ==> assoc > 1)
    }
  }

  datatype Access = Access(addr: nat, size: nat)

  function LastByte(a: Access): nat {
    (a.addr + a.size - 1) % WORD
  }

  function Block(g: Geometry, addr: nat): nat {
    Shr(addr, g.lineBits)
  }

  function BlockPlace(g: Geometry, block: nat): (p: Place)
    ensures p.setNo < g.Sets()
  {
    Place(Low(block, g.setBits), block)
  }

  /** cachesim_ref: one block, two neighbours, or a panic. */
  function Places(g: Geometry, a: Access): (st: Step)
    ensures Fitting(st, g.Sets())
  {
    var block1, block2 := Block(g, a.addr), Block(g, LastByte(a));
    if block1 == block2 then Some([BlockPlace(g, block1)])
    else if block1 + 1 == block2 then Some([BlockPlace(g, block1), BlockPlace(g, block2)])
    else None
  }

  /** addr & tag_mask: the mask is built in 32 bits, so the upper half of the address is lost too. */
  function Masked(g: Geometry, addr: nat): (r: nat) {
    Quot(Rem(addr, UINT), Pow2(g.TagShift())) * Pow2(g.TagShift())
  }

  function MaskedPlace(g: Geometry, addr: nat): (p: Place)
    ensures p.setNo < g.Sets()
  {
    Place(Low(Block(g, addr), g.setBits), Masked(g, addr))
  }

  /** cachesim_ref_wb and the cache-use macro: the same decision, on set numbers. */
  function MaskedPlaces(g: Geometry, a: Access): (st: Step)
    ensures Fitting(st, g.Sets())
  {
    var p, q := MaskedPlace(g, a.addr), MaskedPlace(g, LastByte(a));
    if p.setNo == q.setNo then Some([p])
    else if Low(p.setNo + 1, g.setBits) == q.setNo then Some([p, q])
    else None
  }

  function Steps(g: Geometry, h: seq<Access>): (r: seq<Step>)
    ensures |r| == |h| && forall k :: 0 <= k < |h| ==> r[k] == Places(g, h[k])
  {
    seq(|h|, k requires 0 <= k < |h| => Places(g, h[k]))
  }

  function MaskedSteps(g: Geometry, h: seq<Access>): (r: seq<Step>)
    ensures |r| == |h| && forall k :: 0 <= k < |h| ==> r[k] == MaskedPlaces(g, h[k])
  {
    seq(|h|, k requires 0 <= k < |h| => MaskedPlaces(g, h[k]))
  }

  ghost function Cold(g: Geometry): (c: Tags)
    requires g.assoc > 0
    ensures Fits(c, g.assoc) && |c| == g.Sets()
  {
    Initial(g.Sets(), g.assoc)
  }

  // ----- streams of accesses

  /** Exact LRU history: after any accesses to a cold cache, set s holds the assoc most recently used
      blocks that map to it, padded with the initial zeros; and the next access hits exactly when
      each of its blocks is among those of its set when its turn comes. */
  lemma CacheHistory(g: Geometry, h: seq<Access>, a: Access, s: nat)
    requires g.assoc > 0 && s < g.Sets()
    ensures var c := After(Cold(g), g.assoc, Steps(g, h));
            && c[s] == Window(g.assoc, InSet(Trace(Steps(g, h)), s), 0)
            && (Ref(c, g.assoc, Places(g, a)).0 == Hit
                <==> Places(g, a).Some? && AllRecent(g.assoc, Trace(Steps(g, h)), Places(g, a).value))
  {
    AfterIsTrace(Cold(g), g.assoc, Steps(g, h));
    SetHistory(g.Sets(), g.assoc, Trace(Steps(g, h)), s);
    if Places(g, a).Some? {
      AllHitIffRecent(g.Sets(), g.assoc, Trace(Steps(g, h)), Places(g, a).value);
    }
  }

  /** LRU inclusion: two caches that differ in associativity only, fed the same accesses from cold. */
  lemma LruInclusion(g: Geometry, n: nat, h: seq<Access>)
    requires 0 < g.assoc <= n
    ensures var c, C := Cold(g), Cold(g.(assoc := n));
            && Included(After(c, g.assoc, Steps(g, h)), After(C, n, Steps(g, h)))
            && (h != [] && LastOutcome(c, g.assoc, Steps(g, h)) == Hit ==> LastOutcome(C, n, Steps(g, h)) == Hit)
            && Misses(C, n, Steps(g, h)) <= Misses(c, g.assoc, Steps(g, h))
  {
    InitialIncluded(g.Sets(), g.assoc, n);
    Inclusion(Cold(g), g.assoc, Cold(g.(assoc := n)), n, Steps(g, h));
  }

  /** Repeating an access at once hits and leaves the cache as it is. */
  lemma RepeatHits(g: Geometry, c: Tags, a: Access)
    requires g.Usable() && Fits(c, g.assoc) && |c| == g.Sets() && Places(g, a).Some?
    ensures var c' := Ref(c, g.assoc, Places(g, a)).1; Ref(c', g.assoc, Places(g, a)) == (Hit, c')
  {
    var ps := Places(g, a).value;
    if |ps| == 1 {
      ReferOne(c, g.assoc, ps[0]);
      ReferOne(Refer(c, g.assoc, ps[0]), g.assoc, ps[0]);
      RepeatOne(c, g.assoc, ps[0]);
      assert ps == [ps[0]];
    } else {
      if g.setBits > 0 {
        NextSet(g, Block(g, a.addr));
      }
      assert ps == [ps[0], ps[1]];
      RepeatTwo(c, g.assoc, ps[0], ps[1]);
    }
  }

  /** With two sets or more, neighbouring blocks lie in different sets, one after the other. */
  lemma NextSet(g: Geometry, block: nat)
    requires g.setBits > 0
    ensures Low(block, g.setBits) != Low(block + 1, g.setBits)
    ensures Low(Low(block, g.setBits) + 1, g.setBits) == Low(block + 1, g.setBits)
  {
    Pow2Grows(0, g.setBits);
    RemOfNext(block, Pow2(g.setBits));
    RemOfRemNext(block, Pow2(g.setBits));
  }

  // ----- block tags and masked tags

  /** The number of lines in 32 bits of address. */
  function Lines32(g: Geometry): (r: nat)
    requires g.TagShift() < 32
    ensures r > 0
  {
    Pow2(32 - g.lineBits)
  }

  /** The masked tag of a block. */
  function TagOf(g: Geometry, block: nat): nat
    requires g.TagShift() < 32
  {
    Quot(Rem(block, Lines32(g)), g.Sets()) * Pow2(g.TagShift())
  }

  lemma MaskedIsTagOf(g: Geometry, addr: nat)
    requires g.TagShift() < 32
    ensures Masked(g, addr) == TagOf(g, Block(g, addr))
  {
    var l, v, n := g.LineSize(), Lines32(g), g.Sets();
    Pow2Add(g.lineBits, g.setBits);
    Pow2Add(g.lineBits, 32 - g.lineBits);
    assert Pow2(32) == UINT by { Pow2Is32(); }
    QuotOfRem(addr, l, v);
    QuotOfQuot(Rem(addr, l * v), l, n);
  }

  /** Two blocks of one set get the same masked tag exactly when they agree in 32 bits of address. */
  lemma TagOfEqual(g: Geometry, b: nat, b': nat)
    requires g.TagShift() < 32 && Low(b, g.setBits) == Low(b', g.setBits)
    ensures TagOf(g, b) == TagOf(g, b') <==> Rem(b, Lines32(g)) == Rem(b', Lines32(g))
  {
    var v, n, t := Lines32(g), g.Sets(), Pow2(g.TagShift());
    var m, m' := Rem(b, v), Rem(b', v);
    Pow2Add(g.setBits, 32 - g.TagShift());
    assert v == n * Pow2(32 - g.TagShift());
    RemOfRem(b, n, Pow2(32 - g.TagShift()));
    RemOfRem(b', n, Pow2(32 - g.TagShift()));
    QuotRem(m, n);
    QuotRem(m', n);
    if TagOf(g, b) == TagOf(g, b') {
      CancelFactor(Quot(m, n), Quot(m', n), t);
    }
  }

  /** A block gets the masked tag 0, that of an empty way, exactly when it is among the first lines
      of its 32-bit range. */
  lemma TagOfZero(g: Geometry, b: nat)
    requires g.TagShift() < 32
    ensures TagOf(g, b) == 0 <==> Rem(b, Lines32(g)) < g.Sets()
  {
    var m, n := Rem(b, Lines32(g)), g.Sets();
    if m >= n {
      QuotPositive(m, n);
      assert Quot(m, n) * Pow2(g.TagShift()) >= 1 by { MulPositive(Quot(m, n), Pow2(g.TagShift())); }
    } else {
      QuotZero(m, n);
    }
  }

  // ----- when the two mappings agree

  ghost function Name(g: Geometry): nat -> nat
    requires g.TagShift() < 32
  {
    b => TagOf(g, b)
  }

  ghost predicate Over(A: iset<Access>, h: seq<Access>) {
    forall k :: 0 <= k < |h| ==> h[k] in A
  }

  /** The last access of h has the same outcome under both mappings, from cold. */
  ghost predicate Agrees(g: Geometry, h: seq<Access>)
    requires g.assoc > 0 && h != []
  {
    LastOutcome(Cold(g), g.assoc, MaskedSteps(g, h)) == LastOutcome(Cold(g), g.assoc, Steps(g, h))
  }

  predicate OneLine(g: Geometry, a: Access) {
    Block(g, a.addr) == Block(g, LastByte(a))
  }

  /** The low 32 address bits of the accesses decide their block, and only block 0 starts with the
      tag of an empty way. */
  ghost predicate Unambiguous(g: Geometry, A: iset<Access>)
    requires g.TagShift() < 32
  {
    && (forall a :: a in A && Rem(Block(g, a.addr), Lines32(g)) < g.Sets() ==> Block(g, a.addr) == 0)
    && (forall a, a' :: a in A && a' in A && Rem(Block(g, a.addr), Lines32(g)) == Rem(Block(g, a'.addr), Lines32(g))
          ==> Block(g, a.addr) == Block(g, a'.addr))
  }

  ghost predicate Reached(g: Geometry, A: iset<Access>, p: Place) {
    p.tag == 0 || exists a :: a in A && p == BlockPlace(g, Block(g, a.addr))
  }

  lemma NameTells(g: Geometry, p: Place, q: Place)
    requires g.TagShift() < 32 && p.setNo == q.setNo && TagOf(g, p.tag) == TagOf(g, q.tag)
    requires p.tag == 0 || p == BlockPlace(g, p.tag)
    requires q.tag == 0 || q == BlockPlace(g, q.tag)
    ensures p.tag == q.tag
         || (p.tag == 0 && Rem(q.tag, Lines32(g)) < g.Sets())
         || (q.tag == 0 && Rem(p.tag, Lines32(g)) < g.Sets())
         || (p.tag != 0 && q.tag != 0 && Rem(p.tag, Lines32(g)) == Rem(q.tag, Lines32(g)))
  {
    QuotZero(0, Lines32(g));
    TagOfZero(g, 0);
    TagOfZero(g, p.tag);
    TagOfZero(g, q.tag);
    if p.tag != 0 && q.tag != 0 {
      TagOfEqual(g, p.tag, q.tag);
    }
  }

  lemma UnambiguousTells(g: Geometry, A: iset<Access>)
    requires g.TagShift() < 32 && Unambiguous(g, A)
    ensures Tells(Name(g), iset p | Reached(g, A, p))
  {
    forall p, q | Reached(g, A, p) && Reached(g, A, q) && p.setNo == q.setNo && TagOf(g, p.tag) == TagOf(g, q.tag)
      ensures p.tag == q.tag
    {
      NameTells(g, p, q);
    }
  }

  lemma ColdRenamed(g: Geometry)
    requires g.assoc > 0 && g.TagShift() < 32
    ensures Renamed(Name(g), Cold(g)) == Cold(g)
  {
    QuotZero(0, Lines32(g));
    TagOfZero(g, 0);
    assert TagOf(g, 0) == 0;
    assert Map(Name(g), Fill(0, g.assoc)) == Fill(0, g.assoc);
    assert forall s :: 0 <= s < g.Sets() ==> Renamed(Name(g), Cold(g))[s] == Cold(g)[s];
  }

  lemma OneLinePlaces(g: Geometry, a: Access)
    requires g.TagShift() < 32 && OneLine(g, a)
    ensures Places(g, a) == Some([BlockPlace(g, Block(g, a.addr))])
    ensures MaskedPlaces(g, a) == RenamedStep(Name(g), Places(g, a))
  {
    MaskedIsTagOf(g, a.addr);
    MaskedIsTagOf(g, LastByte(a));
    assert RenamedPlaces(Name(g), [BlockPlace(g, Block(g, a.addr))]) == [MaskedPlace(g, a.addr)];
  }

  lemma OneOutcome(c: Tags, assoc: nat, p: Place, h: seq<Step>)
    requires Fits(c, assoc) && p.setNo < |c| && h == [Some([p])]
    ensures After(c, assoc, h) == Refer(c, assoc, p)
    ensures LastOutcome(c, assoc, h) == if Resident(c, p) then Hit else Miss
  {
    assert Front(h) == [] && Last(h) == Some([p]);
    ReferOne(c, assoc, p);
  }

  lemma TwoOutcomes(c: Tags, assoc: nat, p: Place, q: Place, h: seq<Step>)
    requires Fits(c, assoc) && p.setNo < |c| && q.setNo < |c| && h == [Some([p]), Some([q])]
    ensures LastOutcome(c, assoc, h) == if Resident(Refer(c, assoc, p), q) then Hit else Miss
  {
    OneOutcome(c, assoc, p, Front(h));
    ReferOne(Refer(c, assoc, p), assoc, q);
  }

  lemma FirstOutcome(g: Geometry, a: Access)
    requires g.assoc > 0 && g.TagShift() < 32 && OneLine(g, a)
    ensures Agrees(g, [a]) <==> (Block(g, a.addr) == 0 <==> Rem(Block(g, a.addr), Lines32(g)) < g.Sets())
  {
    OneLinePlaces(g, a);
    var b := Block(g, a.addr);
    var p := BlockPlace(g, b);
    var q := Place(p.setNo, TagOf(g, b));
    assert MaskedPlaces(g, a).value == [q];
    OneOutcome(Cold(g), g.assoc, p, Steps(g, [a]));
    OneOutcome(Cold(g), g.assoc, q, MaskedSteps(g, [a]));
    ColdResident(g, p);
    ColdResident(g, q);
    TagOfZero(g, b);
  }

  lemma ColdResident(g: Geometry, p: Place)
    requires g.assoc > 0 && p.setNo < g.Sets()
    ensures Resident(Cold(g), p) <==> p.tag == 0
  {
    assert Cold(g)[p.setNo][0] == 0;
  }

  lemma SecondOutcome(g: Geometry, a: Access, a': Access)
    requires g.assoc > 0 && g.TagShift() < 32 && OneLine(g, a) && OneLine(g, a')
    requires Rem(Block(g, a.addr), Lines32(g)) == Rem(Block(g, a'.addr), Lines32(g))
    requires Block(g, a.addr) != Block(g, a'.addr) && Block(g, a.addr) != 0 && Block(g, a'.addr) != 0
    ensures !Agrees(g, [a, a'])
  {
    OneLinePlaces(g, a);
    OneLinePlaces(g, a');
    var b, b' := Block(g, a.addr), Block(g, a'.addr);
    var s := Low(b, g.setBits);
    assert Low(b', g.setBits) == s by {
      Pow2Add(g.setBits, 32 - g.TagShift());
      RemOfRem(b, g.Sets(), Pow2(32 - g.TagShift()));
      RemOfRem(b', g.Sets(), Pow2(32 - g.TagShift()));
    }
    var p, p' := Place(s, b), Place(s, b');
    var q, q' := Place(s, TagOf(g, b)), Place(s, TagOf(g, b'));
    TagOfEqual(g, b, b');
    assert Places(g, a).value == [p] && Places(g, a').value == [p'];
    assert MaskedPlaces(g, a).value == [q] && MaskedPlaces(g, a').value == [q'];
    TwoOutcomes(Cold(g), g.assoc, p, p', Steps(g, [a, a']));
    TwoOutcomes(Cold(g), g.assoc, q, q', MaskedSteps(g, [a, a']));
    assert Refer(Cold(g), g.assoc, q)[s][0] == q'.tag;
    assert p'.tag !in Refer(Cold(g), g.assoc, p)[s];
  }

  lemma AgreementForces(g: Geometry, A: iset<Access>)
    requires g.assoc > 0 && g.TagShift() < 32 && forall a :: a in A ==> OneLine(g, a)
    requires forall h :: h != [] && Over(A, h) ==> Agrees(g, h)
    ensures Unambiguous(g, A)
  {
    QuotZero(0, Lines32(g));
    forall a | a in A
      ensures Rem(Block(g, a.addr), Lines32(g)) < g.Sets() ==> Block(g, a.addr) == 0
    {
      assert Over(A, [a]);
      FirstOutcome(g, a);
    }
    forall a, a' | a in A && a' in A && Rem(Block(g, a.addr), Lines32(g)) == Rem(Block(g, a'.addr), Lines32(g))
      ensures Block(g, a.addr) == Block(g, a'.addr)
    {
      assert Over(A, [a, a']);
      if Block(g, a.addr) != 0 && Block(g, a'.addr) != 0 && Block(g, a.addr) != Block(g, a'.addr) {
        SecondOutcome(g, a, a');
      }
    }
  }

  /** On accesses within one line, the block-tag and the masked-tag simulators have the same outcome
      on every stream exactly when the accesses are unambiguous. */
  lemma MaskedAgreesIff(g: Geometry, A: iset<Access>)
    requires g.assoc > 0 && g.TagShift() < 32 && forall a :: a in A ==> OneLine(g, a)
    ensures (forall h :: h != [] && Over(A, h) ==> Agrees(g, h)) <==> Unambiguous(g, A)
  {
    if Unambiguous(g, A) {
      forall h | h != [] && Over(A, h)
        ensures Agrees(g, h)
      {
        UnambiguousAgrees(g, A, h);
      }
    }
    if forall h :: h != [] && Over(A, h) ==> Agrees(g, h) {
      AgreementForces(g, A);
    }
  }

  /** They need not agree: with two sets or more, the first access to the second line misses in the
      block-tag cache, and hits in the masked one, where its tag is that of an empty way. */
  lemma SecondLineDisagrees(g: Geometry)
    requires g.assoc > 0 && g.setBits > 0 && g.TagShift() < 32
    ensures !Agrees(g, [Access(g.LineSize(), 1)])
  {
    hide Agrees;
    RemUnique(g.LineSize(), g.LineSize(), 1, 0);
    assert OneLine(g, Access(g.LineSize(), 1)) by { Pow2Grows(g.lineBits, 32); Pow2Is32(); }
    if g.setBits > 1 { Pow2Grows(1, g.setBits); }
    Pow2Grows(0, 32 - g.lineBits);
    RemUnique(1, Lines32(g), 0, 1);
    FirstOutcome(g, Access(g.LineSize(), 1));
  }

  /** For example, address 16 in a cache of two ways, two sets and lines of 16 bytes. */
  lemma SecondLineExample()
    ensures !Agrees(Geometry(2, 1, 4), [Access(16, 1)])
  {
    hide Agrees;
    SecondLineDisagrees(Geometry(2, 1, 4));
    assert Pow2(4) == 16;
  }

  lemma UnambiguousAgrees(g: Geometry, A: iset<Access>, h: seq<Access>)
    requires g.assoc > 0 && g.TagShift() < 32 && forall a :: a in A ==> OneLine(g, a)
    requires Unambiguous(g, A) && h != [] && Over(A, h)
    ensures Agrees(g, h)
  {
    var u := iset p | Reached(g, A, p);
    UnambiguousTells(g, A);
    ColdRenamed(g);
    forall k | 0 <= k < |h|
      ensures StepIn(u, Steps(g, h)[k]) && MaskedSteps(g, h)[k] == RenamedStep(Name(g), Steps(g, h)[k])
    {
      OneLinePlaces(g, h[k]);
    }
    AfterRenamed(Name(g), u, Cold(g), g.assoc, Steps(g, h), MaskedSteps(g, h));
  }

  /** Addresses above the first lines and below 2^32, at most a line at a time. */
  predicate InRange(g: Geometry, a: Access) {
    && 1 <= a.size <= g.LineSize()
    && Pow2(g.TagShift()) <= a.addr
    && a.addr + a.size <= UINT
  }

  lemma InRangeBlocks(g: Geometry, a: Access)
    requires g.TagShift() < 32 && InRange(g, a)
    ensures var b, b' := Block(g, a.addr), Block(g, LastByte(a));
            g.Sets() <= b < Lines32(g) && b' < Lines32(g) && (b' == b || b' == b + 1)
  {
    var l := g.LineSize();
    var last := a.addr + a.size - 1;
    Pow2Is32();
    Pow2Add(g.lineBits, g.setBits);
    Pow2Add(g.lineBits, 32 - g.lineBits);
    QuotZero(last, WORD);
    assert LastByte(a) == last;
    QuotBounds(a.addr, l, g.Sets(), Lines32(g));
    QuotBounds(last, l, g.Sets(), Lines32(g));
    QuotNear(a.addr, last, l);
  }

  /** With two sets or more, an in-range access goes to the same sets under both mappings. */
  lemma InRangePlaces(g: Geometry, a: Access)
    requires g.setBits > 0 && g.TagShift() < 32 && InRange(g, a)
    ensures MaskedPlaces(g, a) == RenamedStep(Name(g), Places(g, a))
  {
    var b, b' := Block(g, a.addr), Block(g, LastByte(a));
    InRangeBlocks(g, a);
    MaskedIsTagOf(g, a.addr);
    MaskedIsTagOf(g, LastByte(a));
    if b' == b {
      OneLinePlaces(g, a);
    } else {
      NextSet(g, b);
      assert RenamedPlaces(Name(g), Places(g, a).value) == [MaskedPlace(g, a.addr), MaskedPlace(g, LastByte(a))];
    }
  }

  ghost predicate InRangePlace(g: Geometry, p: Place)
    requires g.TagShift() < 32
  {
    p.tag == 0 || (g.Sets() <= p.tag < Lines32(g) && p == BlockPlace(g, p.tag))
  }

  /** On in-range accesses to at least two sets, straddling ones included, the masked simulators hold
      the renamed contents of the plain one and have the same outcome on every stream. */
  lemma MaskedRefinesPlain(g: Geometry, h: seq<Access>)
    requires g.assoc > 0 && g.setBits > 0 && g.TagShift() < 32
    requires forall k :: 0 <= k < |h| ==> InRange(g, h[k])
    ensures After(Cold(g), g.assoc, MaskedSteps(g, h)) == Renamed(Name(g), After(Cold(g), g.assoc, Steps(g, h)))
    ensures h != [] ==> Agrees(g, h)
  {
    var u := iset p | InRangePlace(g, p);
    forall p, q | InRangePlace(g, p) && InRangePlace(g, q) && p.setNo == q.setNo && TagOf(g, p.tag) == TagOf(g, q.tag)
      ensures p.tag == q.tag
    {
      NameTells(g, p, q);
      QuotZero(p.tag, Lines32(g));
      QuotZero(q.tag, Lines32(g));
    }
    ColdRenamed(g);
    forall k | 0 <= k < |h|
      ensures StepIn(u, Steps(g, h)[k]) && MaskedSteps(g, h)[k] == RenamedStep(Name(g), Steps(g, h)[k])
    {
      InRangeBlocks(g, h[k]);
      InRangePlaces(g, h[k]);
    }
    AfterRenamed(Name(g), u, Cold(g), g.assoc, Steps(g, h), MaskedSteps(g, h));
  }

  // ----- a single set

  /** With a single set the masked simulators never see the second line of a straddling access. */
  lemma SingleSetIgnoresStraddle(g: Geometry, a: Access)
    requires g.setBits == 0
    ensures MaskedPlaces(g, a) == Some([Place(0, Masked(g, a.addr))])
  {
    assert g.Sets() == 1;
  }

  /** Two bytes across the start of block b, then that block again. */
  function Straddle(g: Geometry, b: nat): seq<Access>
    requires b > 0
  {
    [Access(b * g.LineSize() - 1, 2), Access(b * g.LineSize(), 1)]
  }

  lemma StraddleBlocks(g: Geometry, b: nat)
    requires g.TagShift() < 32 && 0 < b < Lines32(g)
    ensures 0 < b * g.LineSize() < UINT
    ensures Block(g, b * g.LineSize() - 1) == b - 1 && Block(g, b * g.LineSize()) == b
    ensures forall a :: a in Straddle(g, b) ==> LastByte(a) == b * g.LineSize()
  {
    var l, v := g.LineSize(), Lines32(g);
    Pow2Add(g.lineBits, 32 - g.lineBits);
    Pow2Is32();
    MulPositive(b, l);
    MulBelow(b, 0, v, l);
    assert (b - 1) * l == b * l - l;
    RemUnique(b * l - 1, l, b - 1, l - 1);
    RemUnique(b * l, l, b, 0);
    QuotZero(b * l, WORD);
  }

  lemma StraddlePlaces(g: Geometry, b: nat)
    requires g.setBits == 0 && g.TagShift() < 32 && 0 < b < Lines32(g)
    ensures Steps(g, Straddle(g, b)) == [Some([Place(0, b - 1), Place(0, b)]), Some([Place(0, b)])]
    ensures MaskedSteps(g, Straddle(g, b)) == [Some([Place(0, TagOf(g, b - 1))]), Some([Place(0, TagOf(g, b))])]
  {
    hide Masked, TagOf, Block, LastByte, Straddle;
    var h := [Access(b * g.LineSize() - 1, 2), Access(b * g.LineSize(), 1)];
    assert Straddle(g, b) == h by { StraddleIs(g, b); }
    StraddleBlocks(g, b);
    assert h[0] in h && h[1] in h;
    forall k | 0 <= k < 2
      ensures MaskedPlaces(g, h[k]) == Some([Place(0, TagOf(g, Block(g, h[k].addr)))])
    {
      SingleSetIgnoresStraddle(g, h[k]);
      MaskedIsTagOf(g, h[k].addr);
    }
    assert Low(b - 1, 0) == Low(b, 0) == 0;
  }

  lemma StraddleIs(g: Geometry, b: nat)
    requires b > 0
    ensures Straddle(g, b) == [Access(b * g.LineSize() - 1, 2), Access(b * g.LineSize(), 1)]
  {
  }

  /** The second place of an access is resident for the next one. */
  lemma SecondIsResident(c: Tags, assoc: nat, p: Place, q: Place, h: seq<Step>)
    requires Fits(c, assoc) && p.setNo < |c| && q.setNo < |c| && h == [Some([p, q]), Some([q])]
    ensures LastOutcome(c, assoc, h) == Hit
  {
    hide Refer, Resident;
    var c' := Refer(c, assoc, p);
    var c'' := Refer(c', assoc, q);
    ReferTwo(c, assoc, p, q);
    assert After(c, assoc, Front(h)) == c'' by {
      assert Front(h) == [Some([p, q])] && Front(Front(h)) == [];
    }
    ReferOne(c'', assoc, q);
    RepeatOne(c', assoc, q);
  }

  /** So the two differ: a straddling access leaves its second block resident in the block-tag cache only. */
  lemma StraddleDisagrees(g: Geometry, b: nat)
    requires g.assoc > 0 && g.setBits == 0 && g.TagShift() < 32 && 0 < b < Lines32(g)
    ensures LastOutcome(Cold(g), g.assoc, Steps(g, Straddle(g, b))) == Hit
    ensures LastOutcome(Cold(g), g.assoc, MaskedSteps(g, Straddle(g, b))) == Miss
    ensures !Agrees(g, Straddle(g, b))
  {
    hide Straddle, TagOf, MaskedPlaces, Places;
    var p, p' := Place(0, b - 1), Place(0, b);
    var q, q' := Place(0, TagOf(g, b - 1)), Place(0, TagOf(g, b));
    StraddlePlaces(g, b);
    SecondIsResident(Cold(g), g.assoc, p, p', Steps(g, Straddle(g, b)));
    TwoOutcomes(Cold(g), g.assoc, q, q', MaskedSteps(g, Straddle(g, b)));
    QuotZero(b - 1, Lines32(g));
    QuotZero(b, Lines32(g));
    assert Low(b - 1, 0) == Low(b, 0) == 0;
    TagOfEqual(g, b - 1, b);
    TagOfZero(g, b);
    assert q'.tag !in Refer(Cold(g), g.assoc, q)[0];
  }

  /** For example, bytes 31 and 32 and then byte 32, in two ways with lines of 16 bytes. */
  lemma StraddleExample()
    ensures !Agrees(Geometry(2, 0, 4), [Access(31, 2), Access(32, 1)])
  {
    hide Agrees;
    Pow2Grows(4, 28);
    assert Pow2(4) == 16;
    StraddleDisagrees(Geometry(2, 0, 4), 2);
  }

  ghost predicate AllInRange(g: Geometry, h: seq<Access>) {
    forall k :: 0 <= k < |h| ==> InRange(g, h[k])
  }

  /** A cache in which no in-range access can reach a second line of the same set. */
  predicate NoStraddleInSet(g: Geometry) {
    g.setBits > 0 || g.lineBits == 0 || g.lineBits == 31
  }

  lemma OneLineInRange(g: Geometry, a: Access)
    requires g.TagShift() < 32 && g.setBits == 0 && NoStraddleInSet(g) && InRange(g, a)
    ensures OneLine(g, a)
  {
    InRangeBlocks(g, a);
    if g.lineBits == 0 {
      Pow2Is32();
      QuotZero(a.addr, WORD);
      assert LastByte(a) == a.addr;
    } else {
      assert Lines32(g) == 2 && g.Sets() == 1;
    }
  }

  lemma OneLinesAgree(g: Geometry, h: seq<Access>)
    requires g.assoc > 0 && g.TagShift() < 32 && h != [] && AllInRange(g, h)
    requires forall k :: 0 <= k < |h| ==> OneLine(g, h[k])
    ensures Agrees(g, h)
  {
    hide Agrees, Block, OneLine;
    var A := iset a | InRange(g, a) && OneLine(g, a);
    forall a | a in A
      ensures g.Sets() <= Block(g, a.addr) && Rem(Block(g, a.addr), Lines32(g)) == Block(g, a.addr)
    {
      InRangeBlocks(g, a);
      QuotZero(Block(g, a.addr), Lines32(g));
    }
    UnambiguousAgrees(g, A, h);
  }

  /** In range, the masked simulators have the outcomes of the plain one on every stream exactly when the
      cache has at least two sets, or lines too short or too long to be straddled. */
  lemma InRangeAgreesIff(g: Geometry)
    requires g.assoc > 0 && g.TagShift() < 32
    ensures (forall h :: h != [] && AllInRange(g, h) ==> Agrees(g, h)) <==> NoStraddleInSet(g)
  {
    hide Agrees;
    if NoStraddleInSet(g) {
      forall h | h != [] && AllInRange(g, h)
        ensures Agrees(g, h)
      {
        if g.setBits > 0 {
          MaskedRefinesPlain(g, h);
        } else {
          forall k | 0 <= k < |h|
            ensures OneLine(g, h[k])
          {
            OneLineInRange(g, h[k]);
          }
          OneLinesAgree(g, h);
        }
      }
    } else {
      StraddleInRange(g);
      StraddleDisagrees(g, 2);
    }
  }

  lemma StraddleInRange(g: Geometry)
    requires g.TagShift() < 32 && !NoStraddleInSet(g)
    ensures 2 < Lines32(g) && AllInRange(g, Straddle(g, 2))
  {
    Pow2Grows(1, 32 - g.lineBits);
    Pow2Grows(0, g.lineBits);
    StraddleBlocks(g, 2);
  }
}
