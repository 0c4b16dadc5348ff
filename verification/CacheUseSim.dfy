/** callgrind/sim.c, the cache-use L1 cache as a whole: the CACHEUSE and UPDATE_USE macros. */
module CacheUseSim {
  import opened Options
  import opened Words
  import opened Lru
  import opened SetCache
  import opened SetArray
  import opened CacheModel
  import opened CacheUse

  // ----- whole caches on values

  /** A set number and a reference to that set. */
  datatype Target = Target(setNo: nat, use: Use)

  type Uses = seq<SetUse>

  ghost predicate Sound(t: nat, assoc: nat, c: Uses) {
    forall s :: 0 <= s < |c| ==> Valid(t, c[s]) && |c[s].entries| == assoc
  }

  ghost predicate Fit(t: nat, xs: seq<Target>, sets: nat)
    requires t > 0
  {
    forall k :: 0 <= k < |xs| ==> xs[k].setNo < sets && Rem(xs[k].use.tag, t) == 0
  }

  function PlacesOf(xs: seq<Target>): (ps: seq<Place>)
    ensures |ps| == |xs| && forall k :: 0 <= k < |xs| ==> ps[k] == Place(xs[k].setNo, xs[k].use.tag)
  {
    seq(|xs|, k requires 0 <= k < |xs| => Place(xs[k].setNo, xs[k].use.tag))
  }

  ghost function TagCache(t: nat, c: Uses): (r: Tags)
    requires t > 0
    ensures |r| == |c| && forall s :: 0 <= s < |c| ==> r[s] == TagParts(t, c[s].entries)
  {
    seq(|c|, s requires 0 <= s < |c| => TagParts(t, c[s].entries))
  }

  ghost function ReferUse(t: nat, assoc: nat, c: Uses, x: Target): (c': Uses)
    requires t > 0 && Sound(t, assoc, c) && x.setNo < |c| && Rem(x.use.tag, t) == 0
    ensures Sound(t, assoc, c') && |c'| == |c|
  {
    c[x.setNo := TouchUse(t, c[x.setNo], x.use)]
  }

  ghost function ReferAllUse(t: nat, assoc: nat, c: Uses, xs: seq<Target>): (c': Uses)
    requires t > 0 && Sound(t, assoc, c) && Fit(t, xs, |c|)
    ensures Sound(t, assoc, c') && |c'| == |c|
  {
    if xs == [] then c else ReferUse(t, assoc, ReferAllUse(t, assoc, c, Front(xs)), Last(xs))
  }

  lemma {:induction false} TagsReferAll(t: nat, assoc: nat, c: Uses, xs: seq<Target>)
    requires t > 0 && assoc > 0 && Sound(t, assoc, c) && Fit(t, xs, |c|)
    ensures Fits(TagCache(t, c), assoc)
    ensures TagCache(t, ReferAllUse(t, assoc, c, xs)) == ReferAll(TagCache(t, c), assoc, PlacesOf(xs))
  {
    if xs != [] {
      TagsReferAll(t, assoc, c, Front(xs));
      assert Front(PlacesOf(xs)) == PlacesOf(Front(xs));
      TagsTouch(t, ReferAllUse(t, assoc, c, Front(xs))[Last(xs).setNo], Last(xs).use);
    }
  }

  // ----- accesses

  function LineAddress(g: Geometry, addr: nat): nat {
    Quot(addr, g.LineSize()) * g.LineSize()
  }

  function TargetOf(g: Geometry, addr: nat): (x: Target)
    ensures x.setNo < g.Sets()
  {
    Target(Low(Block(g, addr), g.setBits), Use(Masked(g, addr), LineAddress(g, addr)))
  }

  /** The references of one access, with the lines they come from. */
  function Targets(g: Geometry, a: Access): Option<seq<Target>> {
    var x, y := TargetOf(g, a.addr), TargetOf(g, LastByte(a));
    if x.setNo == y.setNo then Some([x])
    else if Low(x.setNo + 1, g.setBits) == y.setNo then Some([x, y])
    else None
  }

  lemma TargetsFit(g: Geometry, a: Access)
    requires Targets(g, a).Some?
    ensures Fit(Pow2(g.TagShift()), Targets(g, a).value, g.Sets())
  {
    MaskedAligned(g, a.addr);
    MaskedAligned(g, LastByte(a));
  }

  lemma TargetsArePlaces(g: Geometry, a: Access)
    ensures MaskedPlaces(g, a) == match Targets(g, a) case None => None case Some(xs) => Some(PlacesOf(xs))
  {
    var x, y := TargetOf(g, a.addr), TargetOf(g, LastByte(a));
    assert PlacesOf([x]) == [MaskedPlace(g, a.addr)];
    assert PlacesOf([x, y]) == [MaskedPlace(g, a.addr), MaskedPlace(g, LastByte(a))];
  }

  lemma MaskedAligned(g: Geometry, addr: nat)
    ensures Rem(Masked(g, addr), Pow2(g.TagShift())) == 0
  {
    RemUnique(Masked(g, addr), Pow2(g.TagShift()), Quot(Rem(addr, UINT), Pow2(g.TagShift())), 0);
  }

  ghost function Start(g: Geometry): (c: Uses)
    requires 0 < g.assoc <= Pow2(g.TagShift())
    ensures Sound(Pow2(g.TagShift()), g.assoc, c) && |c| == g.Sets()
  {
    seq(g.Sets(), _ => Fresh(Pow2(g.TagShift()), g.assoc))
  }

  ghost predicate SoundFor(g: Geometry, c: Uses) {
    Sound(Pow2(g.TagShift()), g.assoc, c) && |c| == g.Sets()
  }

  /** One access: the outcome of the L1 lookup, and the state it leaves. */
  ghost function Read(g: Geometry, c: Uses, a: Access): (r: (Outcome, Uses))
    requires SoundFor(g, c)
    ensures SoundFor(g, r.1)
  {
    match Targets(g, a)
    case None => (Panic, c)
    case Some(xs) =>
      TargetsFit(g, a);
      var t := Pow2(g.TagShift());
      (if AllFound(t, g.assoc, c, xs) then Hit else Miss, ReferAllUse(t, g.assoc, c, xs))
  }

  ghost function AfterUse(g: Geometry, h: seq<Access>): (c: Uses)
    requires 0 < g.assoc <= Pow2(g.TagShift())
    ensures SoundFor(g, c)
  {
    if h == [] then Start(g) else Read(g, AfterUse(g, Front(h)), Last(h)).1
  }

  lemma StartIsCold(g: Geometry, t: nat)
    requires t == Pow2(g.TagShift()) && 0 < g.assoc <= t
    ensures TagCache(t, Start(g)) == Cold(g)
  {
    assert forall s :: 0 <= s < g.Sets() ==> TagCache(t, Start(g))[s] == Cold(g)[s];
  }

  lemma TagsStep(g: Geometry, t: nat, h: seq<Access>)
    requires t == Pow2(g.TagShift()) && 0 < g.assoc <= t && h != []
    ensures Fits(TagCache(t, AfterUse(g, Front(h))), g.assoc)
    ensures TagCache(t, AfterUse(g, h)) == Ref(TagCache(t, AfterUse(g, Front(h))), g.assoc, MaskedPlaces(g, Last(h))).1
  {
    TargetsArePlaces(g, Last(h));
    if Targets(g, Last(h)).Some? {
      TargetsFit(g, Last(h));
      TagsReferAll(t, g.assoc, AfterUse(g, Front(h)), Targets(g, Last(h)).value);
    }
  }

  /** The tags of the ways form the plain LRU cache on masked tags. */
  lemma {:induction false} TagsAfter(g: Geometry, t: nat, h: seq<Access>)
    requires t == Pow2(g.TagShift()) && 0 < g.assoc <= t
    ensures TagCache(t, AfterUse(g, h)) == After(Cold(g), g.assoc, MaskedSteps(g, h))
  {
    if h == [] {
      StartIsCold(g, t);
      assert MaskedSteps(g, h) == [];
    } else {
      TagsAfter(g, t, Front(h));
      TagsStep(g, t, h);
      assert Front(MaskedSteps(g, h)) == MaskedSteps(g, Front(h));
      assert Last(MaskedSteps(g, h)) == MaskedPlaces(g, Last(h));
    }
  }

  ghost predicate AllFound(t: nat, assoc: nat, c: Uses, xs: seq<Target>)
    requires t > 0 && Sound(t, assoc, c) && Fit(t, xs, |c|)
  {
    xs == [] || (AllFound(t, assoc, c, Front(xs)) &&
                 Last(xs).use.tag in TagParts(t, ReferAllUse(t, assoc, c, Front(xs))[Last(xs).setNo].entries))
  }

  lemma {:induction false} FoundIsHit(t: nat, assoc: nat, c: Uses, xs: seq<Target>)
    requires t > 0 && assoc > 0 && Sound(t, assoc, c) && Fit(t, xs, |c|)
    ensures Fits(TagCache(t, c), assoc)
    ensures AllFound(t, assoc, c, xs) <==> AllHit(TagCache(t, c), assoc, PlacesOf(xs))
  {
    if xs != [] {
      FoundIsHit(t, assoc, c, Front(xs));
      TagsReferAll(t, assoc, c, Front(xs));
      assert Front(PlacesOf(xs)) == PlacesOf(Front(xs));
    }
  }

  /** The lookup of a hits exactly when a reference to its masked tags does. */
  lemma UseHitIsMasked(g: Geometry, h: seq<Access>, a: Access)
    requires 0 < g.assoc <= Pow2(g.TagShift())
    ensures Read(g, AfterUse(g, h), a).0 == Hit <==> LastOutcome(Cold(g), g.assoc, MaskedSteps(g, h + [a])) == Hit
    ensures LastOutcome(Cold(g), g.assoc, Steps(g, h + [a])) == Ref(After(Cold(g), g.assoc, Steps(g, h)), g.assoc, Places(g, a)).0
  {
    TagsAfter(g, Pow2(g.TagShift()), h);
    StepsAppend(g, h, a);
    TargetsArePlaces(g, a);
    if Targets(g, a).Some? {
      TargetsFit(g, a);
      FoundIsHit(Pow2(g.TagShift()), g.assoc, AfterUse(g, h), Targets(g, a).value);
    }
  }

  /** Cache-use refinement: on in-range accesses to at least two sets the ways hold the plain contents
      under its renaming, the slots of every set are a permutation of the ways, and the simulator
      answers L1_Hit exactly when the plain one hits. */
  lemma CacheUseRefinesPlain(g: Geometry, h: seq<Access>, a: Access)
    requires 0 < g.assoc <= Pow2(g.TagShift()) && g.setBits > 0 && g.TagShift() < 32
    requires InRange(g, a) && forall k :: 0 <= k < |h| ==> InRange(g, h[k])
    ensures TagCache(Pow2(g.TagShift()), AfterUse(g, h)) == Renamed(Name(g), After(Cold(g), g.assoc, Steps(g, h)))
    ensures forall s :: 0 <= s < g.Sets() ==> Permutation(SlotParts(Pow2(g.TagShift()), AfterUse(g, h)[s].entries))
    ensures Read(g, AfterUse(g, h), a).0 == Hit <==> Ref(After(Cold(g), g.assoc, Steps(g, h)), g.assoc, Places(g, a)).0 == Hit
  {
    TagsAfter(g, Pow2(g.TagShift()), h);
    SlotsArePermuted(g, h);
    MaskedRefinesPlain(g, h);
    MaskedRefinesPlain(g, h + [a]);
    UseHitIsMasked(g, h, a);
  }

  /** After h, the access a is L1_Hit in the cache-use model exactly when it hits in the plain cache. */
  ghost predicate SameUseHit(g: Geometry, h: seq<Access>, a: Access)
    requires 0 < g.assoc <= Pow2(g.TagShift())
  {
    Read(g, AfterUse(g, h), a).0 == Hit <==> Ref(After(Cold(g), g.assoc, Steps(g, h)), g.assoc, Places(g, a)).0 == Hit
  }

  lemma SameUseHitIfAgrees(g: Geometry, h: seq<Access>, a: Access)
    requires 0 < g.assoc <= Pow2(g.TagShift()) && Agrees(g, h + [a])
    ensures SameUseHit(g, h, a)
  {
    hide LastOutcome, Read, AfterUse, Ref, After;
    UseHitIsMasked(g, h, a);
  }

  /** In range, it does on every stream exactly when no access can straddle two lines of one set. */
  lemma CacheUseAgreesIff(g: Geometry)
    requires 0 < g.assoc <= Pow2(g.TagShift()) && g.TagShift() < 32
    ensures (forall h, a :: AllInRange(g, h) && InRange(g, a) ==> SameUseHit(g, h, a)) <==> NoStraddleInSet(g)
  {
    hide SameUseHit, Agrees, InRange, Straddle;
    if NoStraddleInSet(g) {
      InRangeAgreesIff(g);
      forall h, a | AllInRange(g, h) && InRange(g, a)
        ensures SameUseHit(g, h, a)
      {
        assert AllInRange(g, h + [a]);
        SameUseHitIfAgrees(g, h, a);
      }
    } else {
      var h := Straddle(g, 2);
      StraddleInRange(g);
      StraddleIs(g, 2);
      StraddleNotUsed(g, [h[0]], h[1]);
      assert AllInRange(g, [h[0]]);
    }
  }

  lemma StraddleNotUsed(g: Geometry, h: seq<Access>, a: Access)
    requires 0 < g.assoc <= Pow2(g.TagShift()) && g.TagShift() < 32 && g.setBits == 0 && 2 < Lines32(g)
    requires h + [a] == Straddle(g, 2)
    ensures !SameUseHit(g, h, a)
  {
    hide LastOutcome, Read, AfterUse, Ref, After, Straddle;
    UseHitIsMasked(g, h, a);
    StraddleDisagrees(g, 2);
  }

  lemma StepsAppend(g: Geometry, h: seq<Access>, a: Access)
    ensures Steps(g, h + [a]) != [] && Front(Steps(g, h + [a])) == Steps(g, h) && Last(Steps(g, h + [a])) == Places(g, a)
    ensures MaskedSteps(g, h + [a]) != [] && Front(MaskedSteps(g, h + [a])) == MaskedSteps(g, h)
    ensures Last(MaskedSteps(g, h + [a])) == MaskedPlaces(g, a)
  {
  }

  // ----- each set runs on its own references

  ghost function InSetUse(xs: seq<Target>, s: nat): seq<Use> {
    if xs == [] then []
    else InSetUse(Front(xs), s) + if Last(xs).setNo == s then [Last(xs).use] else []
  }

  ghost function TraceUse(g: Geometry, h: seq<Access>, s: nat): seq<Use> {
    if h == [] then []
    else
      var last := match Targets(g, Last(h)) case None => [] case Some(xs) => InSetUse(xs, s);
      TraceUse(g, Front(h), s) + last
  }

  lemma {:induction false} RunUseConcat(t: nat, u: SetUse, h: seq<Use>, h': seq<Use>)
    requires Valid(t, u) && Aligned(t, h) && Aligned(t, h')
    ensures Aligned(t, h + h') && RunUse(t, u, h + h') == RunUse(t, RunUse(t, u, h), h')
  {
    hide TouchUse;
    if h' == [] {
      assert h + h' == h;
    } else {
      RunUseConcat(t, u, h, Front(h'));
      assert Front(h + h') == h + Front(h') && Last(h + h') == Last(h');
    }
  }

  lemma {:induction false} SetRunsItsTargets(t: nat, assoc: nat, c: Uses, xs: seq<Target>, s: nat)
    requires t > 0 && Sound(t, assoc, c) && Fit(t, xs, |c|) && s < |c|
    ensures Aligned(t, InSetUse(xs, s))
    ensures ReferAllUse(t, assoc, c, xs)[s] == RunUse(t, c[s], InSetUse(xs, s))
  {
    hide TouchUse;
    if xs != [] {
      SetRunsItsTargets(t, assoc, c, Front(xs), s);
      var i := InSetUse(Front(xs), s);
      assert Front(i + [Last(xs).use]) == i;
      assert i + [] == i;
    }
  }

  lemma {:induction false} SetRunsItsUses(g: Geometry, h: seq<Access>, s: nat)
    requires 0 < g.assoc <= Pow2(g.TagShift()) && s < g.Sets()
    ensures Aligned(Pow2(g.TagShift()), TraceUse(g, h, s))
    ensures AfterUse(g, h)[s] == RunUse(Pow2(g.TagShift()), Fresh(Pow2(g.TagShift()), g.assoc), TraceUse(g, h, s))
  {
    if h != [] {
      var t := Pow2(g.TagShift());
      SetRunsItsUses(g, Front(h), s);
      var past := TraceUse(g, Front(h), s);
      match Targets(g, Last(h))
      case None =>
        assert past + [] == past;
      case Some(xs) =>
        TargetsFit(g, Last(h));
        SetRunsItsTargets(t, g.assoc, AfterUse(g, Front(h)), xs, s);
        RunUseConcat(t, Fresh(t, g.assoc), past, InSetUse(xs, s));
    }
  }

  lemma SlotsArePermuted(g: Geometry, h: seq<Access>)
    requires 0 < g.assoc <= Pow2(g.TagShift())
    ensures forall s :: 0 <= s < g.Sets() ==> Permutation(SlotParts(Pow2(g.TagShift()), AfterUse(g, h)[s].entries))
  {
    var t := Pow2(g.TagShift());
    forall s | 0 <= s < g.Sets()
      ensures Permutation(SlotParts(t, AfterUse(g, h)[s].entries))
    {
      SetRunsItsUses(g, h, s);
      RunPermutes(t, Fresh(t, g.assoc), TraceUse(g, h, s));
    }
  }

  /** In every reachable state, the slot named by a resident line keeps the memory line that line was
      loaded from and counts its uses since. */
  lemma RecordsAreExact(g: Geometry, h: seq<Access>, s: nat, tag: nat)
    requires 0 < g.assoc <= Pow2(g.TagShift()) && s < g.Sets()
    requires tag in TagParts(Pow2(g.TagShift()), AfterUse(g, h)[s].entries)
    ensures var u, t := AfterUse(g, h)[s], Pow2(g.TagShift());
            && u.lines[SlotOf(t, u, tag)] == InstalledBy(g.assoc, TraceUse(g, h, s), tag)
            && u.counts[SlotOf(t, u, tag)] == UsesSince(g.assoc, TraceUse(g, h, s), tag)
  {
    var t := Pow2(g.TagShift());
    SetRunsItsUses(g, h, s);
    TagsRun(t, Fresh(t, g.assoc), TraceUse(g, h, s));
    RecordIsOfResident(t, g.assoc, TraceUse(g, h, s), tag);
  }

  // ----- the code

  function NextLine(found: bool, line: nat, memline: nat): nat {
    if found then line else memline
  }

  function NextCount(found: bool, n: nat): nat {
    if found then n + 1 else 1
  }

  /** The sets, from the rows of entries, loaded lines and use counts. */
  ghost function Zip(e: Tags, m: Tags, n: Tags): (c: Uses)
    requires |e| == |m| == |n|
    ensures |c| == |e| && forall s :: 0 <= s < |c| ==> c[s] == SetUse(e[s], m[s], n[s])
  {
    seq(|e|, s requires 0 <= s < |e| => SetUse(e[s], m[s], n[s]))
  }

  lemma ZipUpdate(e: Tags, m: Tags, n: Tags, k: nat, e': seq<nat>, m': seq<nat>, n': seq<nat>)
    requires |e| == |m| == |n| && k < |e|
    ensures Zip(e[k := e'], m[k := m'], n[k := n']) == Zip(e, m, n)[k := SetUse(e', m', n')]
  {
  }

  lemma ReferUseIs(t: nat, assoc: nat, c: Uses, x: Target, found: bool, way: nat, slot: nat)
    requires t > 0 && Sound(t, assoc, c) && x.setNo < |c| && Rem(x.use.tag, t) == 0
    requires var i := IndexOf(TagParts(t, c[x.setNo].entries), x.use.tag);
             found == (i < assoc) && way == if i < assoc then i else assoc - 1
    requires way < assoc && slot == SlotPart(t, c[x.setNo].entries[way]) < assoc
    ensures var u := c[x.setNo];
            ReferUse(t, assoc, c, x) == c[x.setNo := SetUse([x.use.tag + slot] + RemoveAt(u.entries, way),
                                                             u.lines[slot := NextLine(found, u.lines[slot], x.use.memline)],
                                                             u.counts[slot := NextCount(found, u.counts[slot])])]
  {
  }

  predicate Below(s: seq<nat>, bound: nat) {
    forall k :: 0 <= k < |s| ==> s[k] < bound
  }

  lemma InstalledBelow(e: seq<nat>, base: nat, i: nat, x: nat, bound: nat)
    requires Below(e, bound) && x < bound && base + i < |e|
    ensures Below(e[..base] + ([x] + e[base..base + i]) + e[base + i + 1..], bound)
  {
  }

  datatype CacheModelResult = L1_Hit | LL_Hit | MemAccess | ToolPanic

  class UseCache {
    const g: Geometry           // assoc, sets_min_1, line_size_bits, tag_shift
    const assoc: nat
    const sets: nat
    const unit: nat             // 1 << tag_shift, the number of slots the low tag bits can name
    const tags: array<nat>
    const memlines: array<nat>  // loaded[].memline
    const counts: array<nat>    // use[].count

    ghost predicate Shape() {
      && 0 < assoc <= unit
      && (assoc, sets, unit) == (g.assoc, g.Sets(), Pow2(g.TagShift()))
      && g.TagShift() < 32
      && tags.Length == memlines.Length == counts.Length == sets * assoc
      && tags != memlines && tags != counts && memlines != counts
    }

    /** The loops of cacheuse_initcache and cachesim_clearcache: every slot is unused, and every way
        names the slot with its own number. */
    static method InitSlots(tags: array<nat>, memlines: array<nat>, counts: array<nat>, assoc: nat)
      requires assoc > 0 && tags.Length == memlines.Length == counts.Length
      requires tags != memlines && tags != counts && memlines != counts
      modifies tags, memlines, counts
      ensures forall k :: 0 <= k < tags.Length ==> memlines[k] == counts[k] == 0 && tags[k] == Rem(k, assoc)
    {
      hide Rem;
      for i := 0 to tags.Length
        invariant forall k :: 0 <= k < i ==> memlines[k] == counts[k] == 0 && tags[k] == Rem(k, assoc)
      {
        memlines[i] := 0;
        counts[i] := 0;
        tags[i] := Rem(i, assoc);
      }
    }

    /** cachesim_initcache with cacheuse_initcache and cachesim_clearcache, which refuse a cache whose
        ways the low tag bits cannot name. */
    constructor (g: Geometry)
      requires 0 < g.assoc <= Pow2(g.TagShift()) && g.TagShift() < 32
      ensures Valid() && this.g == g && Contents() == Start(g)
      ensures fresh(tags) && fresh(memlines) && fresh(counts)
    {
      hide Rem, Start, Zip, Pow2, Sound, Rows;
      this.g, assoc, sets, unit := g, g.assoc, Pow2(g.setBits), Pow2(g.TagShift());
      tags := new nat[Pow2(g.setBits) * g.assoc];
      memlines := new nat[Pow2(g.setBits) * g.assoc];
      counts := new nat[Pow2(g.setBits) * g.assoc];
      new;
      InitSlots(tags, memlines, counts, assoc);
      StartRows(g, tags[..], memlines[..], counts[..]);
      Pow2Is32();
      Pow2Grows(g.TagShift(), 32);
    }

    ghost function Entries(): (r: Tags)
      requires Shape()
      reads tags
      ensures |r| == sets && forall s :: 0 <= s < sets ==> |r[s]| == assoc
    {
      Rows(tags[..], sets, assoc)
    }

    ghost function Lines(): (r: Tags)
      requires Shape()
      reads memlines
      ensures |r| == sets && forall s :: 0 <= s < sets ==> |r[s]| == assoc
    {
      Rows(memlines[..], sets, assoc)
    }

    ghost function Counts(): (r: Tags)
      requires Shape()
      reads counts
      ensures |r| == sets && forall s :: 0 <= s < sets ==> |r[s]| == assoc
    {
      Rows(counts[..], sets, assoc)
    }

    ghost function Contents(): (c: Uses)
      requires Shape()
      reads tags, memlines, counts
      ensures |c| == sets
    {
      Zip(Entries(), Lines(), Counts())
    }

    ghost predicate Valid()
      reads tags, memlines, counts
    {
      && Shape()
      && Sound(unit, assoc, Contents())
      && Below(tags[..], UINT)
    }

    /** The search for a tag: the entries are masked with the 32-bit tag_mask. */
    method Find(setNo: nat, tag: nat) returns (i: nat)
      requires Valid() && setNo < sets
      ensures i == IndexOf(TagParts(unit, Entries()[setNo]), tag)
    {
      RowBound(setNo, sets, assoc);
      ghost var w := TagParts(unit, Entries()[setNo]);
      i := 0;
      while i < assoc && Quot(Rem(tags[setNo * assoc + i], UINT), unit) * unit != tag
        invariant 0 <= i <= assoc
        invariant forall k :: 0 <= k < i ==> w[k] != tag
      {
        EntryAt(setNo, i);
        i := i + 1;
      }
      if i < assoc {
        EntryAt(setNo, i);
        IndexOfIs(w, tag, i);
      }
    }

    lemma EntryAt(setNo: nat, i: nat)
      requires Shape() && Below(tags[..], UINT) && setNo < sets && i < assoc
      ensures setNo * assoc + i < tags.Length
      ensures Entries()[setNo][i] == tags[setNo * assoc + i]
      ensures Quot(Rem(tags[setNo * assoc + i], UINT), unit) * unit == TagPart(unit, Entries()[setNo][i])
    {
      RowBound(setNo, sets, assoc);
      assert tags[..][setNo * assoc + i] < UINT;
      QuotZero(tags[setNo * assoc + i], UINT);
    }

    /** The shuffle at the end of a reference: the entry takes the front, a way is vacated. */
    method MoveWay(setNo: nat, way: nat, entry: nat)
      requires Shape() && Below(tags[..], UINT) && setNo < sets && way < assoc && entry < UINT
      modifies tags
      ensures Entries() == old(Entries())[setNo := [entry] + RemoveAt(old(Entries())[setNo], way)]
      ensures Below(tags[..], UINT)
    {
      RowBound(setNo, sets, assoc);
      ghost var e := tags[..];
      Install(tags, setNo * assoc, way, entry);
      InstalledBelow(e, setNo * assoc, way, entry, UINT);
      InstallRow(e, tags[..], sets, assoc, setNo, way, entry);
    }

    /** One more use of the line in a slot, or the first use of a new one (update_L_use). */
    method Record(setNo: nat, slot: nat, found: bool, memline: nat)
      requires Shape() && setNo < sets && slot < assoc
      modifies memlines, counts
      ensures var w: seq<nat> := old(Lines())[setNo];
              Lines() == old(Lines())[setNo := w[slot := NextLine(found, w[slot], memline)]]
      ensures var w: seq<nat> := old(Counts())[setNo];
              Counts() == old(Counts())[setNo := w[slot := NextCount(found, w[slot])]]
    {
      RowBound(setNo, sets, assoc);
      ghost var m: seq<nat>, n: seq<nat> := memlines[..], counts[..];
      var idx := setNo * assoc + slot;
      RowsPoint(m, sets, assoc, setNo, slot, NextLine(found, m[idx], memline));
      RowsPoint(n, sets, assoc, setNo, slot, NextCount(found, n[idx]));
      if found {
        counts[idx] := counts[idx] + 1;
      } else {
        counts[idx] := 1;
        memlines[idx] := memline;
      }
      assert memlines[..] == m[idx := NextLine(found, m[idx], memline)];
      assert counts[..] == n[idx := NextCount(found, n[idx])];
    }

    /** One line of the macro: the lookup, the move to the front, and the use record. */
    method Look(x: Target) returns (found: bool)
      requires Valid() && x.setNo < sets && x.use.tag < UINT && Rem(x.use.tag, unit) == 0
      modifies tags, memlines, counts
      ensures Valid()
      ensures Contents() == ReferUse(unit, assoc, old(Contents()), x)
      ensures found <==> x.use.tag in TagParts(unit, old(Contents())[x.setNo].entries)
    {
      var way, slot;
      found, way, slot := Locate(x);
      EntryFits(x.use.tag, slot);
      ReferUseIs(unit, assoc, Contents(), x, found, way, slot);
      Update(x, way, slot, found);
    }

    /** The slot a way names. */
    lemma SlotAt(setNo: nat, way: nat)
      requires Valid() && setNo < sets && way < assoc
      ensures 0 <= setNo * assoc + way < tags.Length && |Contents()[setNo].entries| == assoc
      ensures Rem(tags[setNo * assoc + way], unit) == SlotPart(unit, Contents()[setNo].entries[way]) < assoc
    {
      hide Rows, Below;
      RowBound(setNo, sets, assoc);
      EntryAt(setNo, way);
    }

    /** Whether the line is found, the way its reference goes to, and the slot that way names. */
    method Locate(x: Target) returns (found: bool, way: nat, slot: nat)
      requires Valid() && x.setNo < sets
      ensures var i := IndexOf(TagParts(unit, Contents()[x.setNo].entries), x.use.tag);
              found == (i < assoc) && way == if i < assoc then i else assoc - 1
      ensures way < assoc && slot == SlotPart(unit, Contents()[x.setNo].entries[way]) < assoc
    {
      hide Rows, Sound, Below, Rem;
      var i := Find(x.setNo, x.use.tag);
      found := i < assoc;
      way := if found then i else assoc - 1;
      SlotAt(x.setNo, way);
      slot := Rem(tags[x.setNo * assoc + way], unit);
    }

    /** The writes of one lookup: the way moves to the front and the record of its slot is updated. */
    method Update(x: Target, way: nat, slot: nat, found: bool)
      requires Shape() && Below(tags[..], UINT) && x.setNo < sets && way < assoc && slot < assoc
      requires x.use.tag + slot < UINT
      modifies tags, memlines, counts
      ensures Below(tags[..], UINT)
      ensures var u := old(Contents())[x.setNo];
              Contents() == old(Contents())[x.setNo := SetUse([x.use.tag + slot] + RemoveAt(u.entries, way),
                                                               u.lines[slot := NextLine(found, u.lines[slot], x.use.memline)],
                                                               u.counts[slot := NextCount(found, u.counts[slot])])]
    {
      ghost var k, e, m, n := x.setNo, Entries(), Lines(), Counts();
      ghost var e': seq<nat> := [x.use.tag + slot] + RemoveAt(e[k], way);
      ghost var m': seq<nat> := m[k][slot := NextLine(found, m[k][slot], x.use.memline)];
      ghost var n': seq<nat> := n[k][slot := NextCount(found, n[k][slot])];
      ZipUpdate(e, m, n, k, e', m', n');
      MoveWay(x.setNo, way, x.use.tag + slot);
      Record(x.setNo, slot, found, x.use.memline);
      assert Entries() == e[k := e'] && Lines() == m[k := m'] && Counts() == n[k := n'];
    }

    lemma EntryFits(tag: nat, slot: nat)
      requires Shape() && tag < UINT && Rem(tag, unit) == 0 && slot < unit
      ensures tag + slot < UINT
    {
      UintAligned(g.TagShift());
      AlignedRoom(tag, unit, UINT);
    }

    /** cacheuse_L1_doRead.  What the last level answers on a miss is left open. */
    method DoRead(a: nat, size: nat) returns (r: CacheModelResult)
      requires Valid()
      modifies tags, memlines, counts
      ensures Valid()
      ensures var (o, c) := Read(g, old(Contents()), Access(a, size));
              Contents() == c && (r == L1_Hit <==> o == Hit) && (r == ToolPanic <==> o == Panic)
    {
      hide Pow2, Masked, Sound, ReferUse;
      var x, y := TargetOf(g, a), TargetOf(g, LastByte(Access(a, size)));
      MaskedFits(a);
      MaskedFits(LastByte(Access(a, size)));
      if x.setNo == y.setNo {
        OneTarget(unit, assoc, Contents(), x);
        var found := Look(x);
        if found {
          return L1_Hit;
        }
        r :| r == LL_Hit || r == MemAccess;
      } else if Low(x.setNo + 1, g.setBits) == y.setNo {
        TwoTargets(unit, assoc, Contents(), x, y);
        var miss1 := L1_Hit;
        var found := Look(x);
        if !found {
          miss1 :| miss1 == LL_Hit || miss1 == MemAccess;
        }
        found := Look(y);
        if found {
          return miss1;
        }
        var miss2 :| miss2 == LL_Hit || miss2 == MemAccess;
        return if miss1 == MemAccess || miss2 == MemAccess then MemAccess else LL_Hit;
      } else {
        r := ToolPanic;
      }
    }

    lemma MaskedFits(a: nat)
      requires Shape()
      ensures Masked(g, a) < UINT && Rem(Masked(g, a), unit) == 0
    {
      MaskedAligned(g, a);
      QuotRem(Rem(a, UINT), unit);
    }
  }

  /** A row of the tags array as cacheuse_initcache leaves it: the ways name their own slots. */
  lemma StartRow(e: seq<nat>, sets: nat, assoc: nat, s: nat)
    requires assoc > 0 && |e| == sets * assoc && s < sets && forall k :: 0 <= k < |e| ==> e[k] == Rem(k, assoc)
    ensures Row(e, sets, assoc, s) == seq(assoc, i => i)
  {
    hide Rem;
    RowBound(s, sets, assoc);
    forall i | 0 <= i < assoc
      ensures Row(e, sets, assoc, s)[i] == i
    {
      RemUnique(s * assoc + i, assoc, s, i);
    }
  }

  lemma ZeroRow(m: seq<nat>, sets: nat, assoc: nat, s: nat)
    requires |m| == sets * assoc && s < sets && forall k :: 0 <= k < |m| ==> m[k] == 0
    ensures Row(m, sets, assoc, s) == Fill(0, assoc)
  {
    RowBound(s, sets, assoc);
  }

  lemma StartRows(g: Geometry, e: seq<nat>, m: seq<nat>, n: seq<nat>)
    requires 0 < g.assoc <= Pow2(g.TagShift())
    requires |e| == |m| == |n| == g.Sets() * g.assoc
    requires forall k :: 0 <= k < |e| ==> m[k] == n[k] == 0 && e[k] == Rem(k, g.assoc)
    ensures Zip(Rows(e, g.Sets(), g.assoc), Rows(m, g.Sets(), g.assoc), Rows(n, g.Sets(), g.assoc)) == Start(g)
  {
    hide Rem, Pow2, Row;
    forall s | 0 <= s < g.Sets()
      ensures Zip(Rows(e, g.Sets(), g.assoc), Rows(m, g.Sets(), g.assoc), Rows(n, g.Sets(), g.assoc))[s] == Start(g)[s]
    {
      StartRow(e, g.Sets(), g.assoc, s);
      ZeroRow(m, g.Sets(), g.assoc, s);
      ZeroRow(n, g.Sets(), g.assoc, s);
    }
  }

  lemma OneTarget(t: nat, assoc: nat, c: Uses, x: Target)
    requires t > 0 && Sound(t, assoc, c) && x.setNo < |c| && Rem(x.use.tag, t) == 0
    ensures Fit(t, [x], |c|)
    ensures ReferAllUse(t, assoc, c, [x]) == ReferUse(t, assoc, c, x)
    ensures AllFound(t, assoc, c, [x]) <==> x.use.tag in TagParts(t, c[x.setNo].entries)
  {
    assert Front([x]) == [];
  }

  lemma TwoTargets(t: nat, assoc: nat, c: Uses, x: Target, y: Target)
    requires t > 0 && Sound(t, assoc, c) && x.setNo < |c| && Rem(x.use.tag, t) == 0
    requires y.setNo < |c| && Rem(y.use.tag, t) == 0
    ensures Fit(t, [x, y], |c|)
    ensures var c' := ReferUse(t, assoc, c, x);
            && ReferAllUse(t, assoc, c, [x, y]) == ReferUse(t, assoc, c', y)
            && (AllFound(t, assoc, c, [x, y]) <==>
                (x.use.tag in TagParts(t, c[x.setNo].entries) && y.use.tag in TagParts(t, c'[y.setNo].entries)))
  {
    OneTarget(t, assoc, c, x);
    assert Front([x, y]) == [x];
  }
}
