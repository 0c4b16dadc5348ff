/** callgrind/sim.c, the write-back cache as a whole: cachesim_setref_wb and cachesim_ref_wb. */
module WriteBackSim {
  import opened Options
  import opened Words
  import opened Lru
  import opened SetCache
  import opened SetArray
  import opened CacheModel
  import opened CacheSim
  import opened WriteBack

  // ----- whole caches on values

  ghost function CleanCache(c: Tags): (r: Tags)
    ensures |r| == |c| && forall s :: 0 <= s < |c| ==> r[s] == CleanAll(c[s])
  {
    seq(|c|, s requires 0 <= s < |c| => CleanAll(c[s]))
  }

  ghost predicate EvenStep(st: Step) {
    st.Some? ==> forall k :: 0 <= k < |st.value| ==> st.value[k].tag % 2 == 0
  }

  ghost function ReferWb(c: Tags, assoc: nat, write: bool, p: Place): (c': Tags)
    requires Fits(c, assoc) && p.setNo < |c|
    ensures Fits(c', assoc) && |c'| == |c|
  {
    c[p.setNo := TouchWb(c[p.setNo], write, p.tag)]
  }

  ghost function ReferAllWb(c: Tags, assoc: nat, write: bool, ps: seq<Place>): (c': Tags)
    requires Fits(c, assoc) && Within(ps, |c|)
    ensures Fits(c', assoc) && |c'| == |c|
  {
    if ps == [] then c else ReferWb(ReferAllWb(c, assoc, write, Front(ps)), assoc, write, Last(ps))
  }

  /** A dirty eviction outranks a plain miss, which outranks a hit. */
  function Worse(o: WbOutcome, o': WbOutcome): WbOutcome {
    if o == WbMissDirty || o' == WbMissDirty then WbMissDirty
    else if o == WbMiss || o' == WbMiss then WbMiss
    else WbHit
  }

  ghost function OutcomeAllWb(c: Tags, assoc: nat, write: bool, ps: seq<Place>): WbOutcome
    requires Fits(c, assoc) && Within(ps, |c|)
  {
    if ps == [] then WbHit
    else
      var c' := ReferAllWb(c, assoc, write, Front(ps));
      Worse(OutcomeAllWb(c, assoc, write, Front(ps)), OutcomeWb(c'[Last(ps).setNo], Last(ps).tag))
  }

  /** What reference k of ps meets when its turn comes. */
  ghost function OutcomeAt(c: Tags, assoc: nat, write: bool, ps: seq<Place>, k: nat): WbOutcome
    requires Fits(c, assoc) && Within(ps, |c|) && k < |ps|
  {
    OutcomeWb(ReferAllWb(c, assoc, write, ps[..k])[ps[k].setNo], ps[k].tag)
  }

  /** The outcome of an access is the worst of its references: a dirty miss if there is one among them, else a
      clean miss if there is one, else a hit. */
  lemma {:induction false} OutcomeIsWorst(c: Tags, assoc: nat, write: bool, ps: seq<Place>)
    requires Fits(c, assoc) && Within(ps, |c|)
    ensures var o := OutcomeAllWb(c, assoc, write, ps);
            && (o == WbMissDirty <==> exists k :: 0 <= k < |ps| && OutcomeAt(c, assoc, write, ps, k) == WbMissDirty)
            && (o == WbHit <==> forall k :: 0 <= k < |ps| ==> OutcomeAt(c, assoc, write, ps, k) == WbHit)
            && (o == WbMissDirty || o == WbMiss || o == WbHit)
  {
    hide OutcomeWb, ReferAllWb;
    if ps != [] {
      OutcomeIsWorst(c, assoc, write, Front(ps));
      forall k | 0 <= k < |ps| - 1
        ensures OutcomeAt(c, assoc, write, ps, k) == OutcomeAt(c, assoc, write, Front(ps), k)
      {
        assert Front(ps)[..k] == ps[..k];
      }
      assert OutcomeAt(c, assoc, write, ps, |ps| - 1) == OutcomeWb(ReferAllWb(c, assoc, write, Front(ps))[Last(ps).setNo], Last(ps).tag);
      OutcomeKinds(ReferAllWb(c, assoc, write, Front(ps))[Last(ps).setNo], Last(ps).tag);
    }
  }

  lemma OutcomeKinds(s: seq<nat>, tag: nat)
    requires s != []
    ensures var o := OutcomeWb(s, tag); o == WbMissDirty || o == WbMiss || o == WbHit
  {
  }

  ghost function RefWb(c: Tags, assoc: nat, write: bool, st: Step): (r: (WbOutcome, Tags))
    requires Fits(c, assoc) && Fitting(st, |c|)
    ensures Fits(r.1, assoc) && |r.1| == |c|
  {
    match st
    case None => (WbPanic, c)
    case Some(ps) => (OutcomeAllWb(c, assoc, write, ps), ReferAllWb(c, assoc, write, ps))
  }

  ghost function AfterWb(c: Tags, assoc: nat, ws: seq<bool>, h: seq<Step>): (c': Tags)
    requires Fits(c, assoc) && AllFitting(h, |c|) && |ws| == |h|
    ensures Fits(c', assoc) && |c'| == |c|
  {
    if h == [] then c else RefWb(AfterWb(c, assoc, Front(ws), Front(h)), assoc, Last(ws), Last(h)).1
  }

  ghost function LastOutcomeWb(c: Tags, assoc: nat, ws: seq<bool>, h: seq<Step>): WbOutcome
    requires Fits(c, assoc) && AllFitting(h, |c|) && |ws| == |h| && h != []
  {
    RefWb(AfterWb(c, assoc, Front(ws), Front(h)), assoc, Last(ws), Last(h)).0
  }

  lemma {:induction false} CleanReferAll(c: Tags, assoc: nat, write: bool, ps: seq<Place>)
    requires Fits(c, assoc) && Within(ps, |c|) && EvenStep(Some(ps))
    ensures CleanCache(ReferAllWb(c, assoc, write, ps)) == ReferAll(CleanCache(c), assoc, ps)
    ensures OutcomeAllWb(c, assoc, write, ps) == WbHit <==> AllHit(CleanCache(c), assoc, ps)
  {
    if ps != [] {
      CleanReferAll(c, assoc, write, Front(ps));
      var c' := ReferAllWb(c, assoc, write, Front(ps));
      CleanTouch(c'[Last(ps).setNo], write, Last(ps).tag);
    }
  }

  lemma {:induction false} CleanAfter(c: Tags, assoc: nat, ws: seq<bool>, h: seq<Step>)
    requires Fits(c, assoc) && AllFitting(h, |c|) && |ws| == |h|
    requires forall k :: 0 <= k < |h| ==> EvenStep(h[k])
    ensures CleanCache(AfterWb(c, assoc, ws, h)) == After(CleanCache(c), assoc, h)
    ensures h != [] ==> (LastOutcomeWb(c, assoc, ws, h) == WbHit <==> LastOutcome(CleanCache(c), assoc, h) == Hit)
  {
    if h != [] {
      CleanAfter(c, assoc, Front(ws), Front(h));
      if Last(h).Some? {
        CleanReferAll(AfterWb(c, assoc, Front(ws), Front(h)), assoc, Last(ws), Last(h).value);
      }
    }
  }

  /** Masked tags leave bit 0 free. */
  lemma MaskedIsEven(g: Geometry, addr: nat)
    requires g.TagShift() > 0
    ensures Masked(g, addr) % 2 == 0
  {
    var q, t := Quot(Rem(addr, UINT), Pow2(g.TagShift())), Pow2(g.TagShift() - 1);
    assert q * (2 * t) == 2 * (q * t);
  }

  lemma ColdIsClean(g: Geometry)
    requires g.assoc > 0
    ensures CleanCache(Cold(g)) == Cold(g)
  {
    CleanZeros(g.assoc);
    assert forall s :: 0 <= s < g.Sets() ==> CleanCache(Cold(g))[s] == Cold(g)[s];
  }

  lemma MaskedStepsAreEven(g: Geometry, h: seq<Access>)
    requires g.TagShift() > 0
    ensures forall k :: 0 <= k < |h| ==> EvenStep(MaskedSteps(g, h)[k])
  {
    forall k | 0 <= k < |h|
      ensures EvenStep(MaskedSteps(g, h)[k])
    {
      MaskedIsEven(g, h[k].addr);
      MaskedIsEven(g, LastByte(h[k]));
    }
  }

  /** Write-back refinement: on in-range accesses to at least two sets, dropping the dirty bits gives
      the contents of the plain simulator under its renaming, and the same hits and misses. */
  lemma WriteBackRefinesPlain(g: Geometry, ws: seq<bool>, h: seq<Access>)
    requires g.assoc > 0 && g.setBits > 0 && g.TagShift() < 32 && |ws| == |h|
    requires forall k :: 0 <= k < |h| ==> InRange(g, h[k])
    ensures CleanCache(AfterWb(Cold(g), g.assoc, ws, MaskedSteps(g, h)))
         == Renamed(Name(g), After(Cold(g), g.assoc, Steps(g, h)))
    ensures h != [] ==> (LastOutcomeWb(Cold(g), g.assoc, ws, MaskedSteps(g, h)) == WbHit
                         <==> LastOutcome(Cold(g), g.assoc, Steps(g, h)) == Hit)
  {
    ColdIsClean(g);
    MaskedStepsAreEven(g, h);
    CleanAfter(Cold(g), g.assoc, ws, MaskedSteps(g, h));
    MaskedRefinesPlain(g, h);
  }

  /** The last access of h hits in the write-back cache exactly when it hits in the plain one. */
  ghost predicate SameHit(g: Geometry, ws: seq<bool>, h: seq<Access>)
    requires g.assoc > 0 && |ws| == |h| && h != []
  {
    LastOutcomeWb(Cold(g), g.assoc, ws, MaskedSteps(g, h)) == WbHit <==> LastOutcome(Cold(g), g.assoc, Steps(g, h)) == Hit
  }

  lemma SameHitIfAgrees(g: Geometry, ws: seq<bool>, h: seq<Access>)
    requires g.assoc > 0 && g.TagShift() > 0 && |ws| == |h| && h != []
    ensures LastOutcomeWb(Cold(g), g.assoc, ws, MaskedSteps(g, h)) == WbHit
       <==> LastOutcome(Cold(g), g.assoc, MaskedSteps(g, h)) == Hit
    ensures Agrees(g, h) ==> SameHit(g, ws, h)
  {
    hide LastOutcome, LastOutcomeWb;
    ColdIsClean(g);
    MaskedStepsAreEven(g, h);
    CleanAfter(Cold(g), g.assoc, ws, MaskedSteps(g, h));
  }

  /** In range, the write-back cache hits where the plain one does, on every stream of reads and writes,
      exactly when no access can straddle two lines of one set. */
  lemma WriteBackAgreesIff(g: Geometry)
    requires g.assoc > 0 && 0 < g.TagShift() < 32
    ensures (forall ws: seq<bool>, h :: h != [] && |ws| == |h| && AllInRange(g, h) ==> SameHit(g, ws, h)) <==> NoStraddleInSet(g)
  {
    hide SameHit, Agrees, LastOutcome, LastOutcomeWb;
    if NoStraddleInSet(g) {
      InRangeAgreesIff(g);
      forall ws: seq<bool>, h | h != [] && |ws| == |h| && AllInRange(g, h)
        ensures SameHit(g, ws, h)
      {
        SameHitIfAgrees(g, ws, h);
      }
    } else {
      StraddleInRange(g);
      StraddleMissed(g, [false, false]);
    }
  }

  lemma StraddleMissed(g: Geometry, ws: seq<bool>)
    requires g.assoc > 0 && 0 < g.TagShift() < 32 && g.setBits == 0 && 2 < Lines32(g) && |ws| == 2
    ensures !SameHit(g, ws, Straddle(g, 2))
  {
    hide LastOutcome, LastOutcomeWb;
    StraddleDisagrees(g, 2);
    SameHitIfAgrees(g, ws, Straddle(g, 2));
  }

  // ----- each set runs on its own writes

  ghost function InSetWb(write: bool, ps: seq<Place>, s: nat): seq<Write> {
    if ps == [] then []
    else InSetWb(write, Front(ps), s) + if Last(ps).setNo == s then [Write(write, Last(ps).tag)] else []
  }

  ghost function TraceWb(ws: seq<bool>, h: seq<Step>, s: nat): seq<Write>
    requires |ws| == |h|
  {
    if h == [] then []
    else
      var last := match Last(h) case None => [] case Some(ps) => InSetWb(Last(ws), ps, s);
      TraceWb(Front(ws), Front(h), s) + last
  }

  lemma {:induction false} RunWbConcat(s: seq<nat>, h: seq<Write>, h': seq<Write>)
    requires s != []
    ensures RunWb(s, h + h') == RunWb(RunWb(s, h), h')
  {
    if h' == [] {
      assert h + h' == h;
    } else {
      RunWbConcat(s, h, Front(h'));
      assert Front(h + h') == h + Front(h') && Last(h + h') == Last(h');
    }
  }

  lemma {:induction false} SetRunsItsPlaces(c: Tags, assoc: nat, write: bool, ps: seq<Place>, s: nat)
    requires Fits(c, assoc) && Within(ps, |c|) && s < |c|
    ensures ReferAllWb(c, assoc, write, ps)[s] == RunWb(c[s], InSetWb(write, ps, s))
  {
    if ps != [] {
      SetRunsItsPlaces(c, assoc, write, Front(ps), s);
      var i := InSetWb(write, Front(ps), s);
      assert Front(i + [Write(write, Last(ps).tag)]) == i;
      assert i + [] == i;
    }
  }

  /** Every set of the cache runs the references that go to it, and no others. */
  lemma {:induction false} SetRunsItsWrites(c: Tags, assoc: nat, ws: seq<bool>, h: seq<Step>, s: nat)
    requires Fits(c, assoc) && AllFitting(h, |c|) && |ws| == |h| && s < |c|
    ensures AfterWb(c, assoc, ws, h)[s] == RunWb(c[s], TraceWb(ws, h, s))
  {
    if h != [] {
      SetRunsItsWrites(c, assoc, Front(ws), Front(h), s);
      var t := TraceWb(Front(ws), Front(h), s);
      match Last(h)
      case None =>
        assert t + [] == t;
      case Some(ps) =>
        SetRunsItsPlaces(AfterWb(c, assoc, Front(ws), Front(h)), assoc, Last(ws), ps, s);
        RunWbConcat(c[s], t, InSetWb(Last(ws), ps, s));
    }
  }

  lemma {:induction false} SetTraceIsEven(write: bool, ps: seq<Place>, s: nat)
    requires EvenStep(Some(ps))
    ensures Even(InSetWb(write, ps, s))
  {
    if ps != [] {
      SetTraceIsEven(write, Front(ps), s);
    }
  }

  lemma {:induction false} TraceIsEven(ws: seq<bool>, h: seq<Step>, s: nat)
    requires |ws| == |h| && forall k :: 0 <= k < |h| ==> EvenStep(h[k])
    ensures Even(TraceWb(ws, h, s))
  {
    if h != [] {
      TraceIsEven(Front(ws), Front(h), s);
      if Last(h).Some? {
        SetTraceIsEven(Last(ws), Last(h).value, s);
      }
    }
  }

  /** The references to set s that a stream of accesses makes. */
  ghost function WritesTo(g: Geometry, ws: seq<bool>, h: seq<Access>, s: nat): seq<Write>
    requires |ws| == |h|
  {
    TraceWb(ws, MaskedSteps(g, h), s)
  }

  lemma SetIsRun(g: Geometry, ws: seq<bool>, h: seq<Access>, s: nat)
    requires g.assoc > 0 && g.TagShift() > 0 && |ws| == |h| && s < g.Sets()
    ensures AfterWb(Cold(g), g.assoc, ws, MaskedSteps(g, h))[s] == RunWb(Fill(0, g.assoc), WritesTo(g, ws, h, s))
    ensures Even(WritesTo(g, ws, h, s))
  {
    SetRunsItsWrites(Cold(g), g.assoc, ws, MaskedSteps(g, h), s);
    MaskedStepsAreEven(g, h);
    TraceIsEven(ws, MaskedSteps(g, h), s);
  }

  /** In every reachable state of the cache, a resident line is dirty exactly when an access wrote it
      since it was last installed. */
  lemma CacheDirtyIffWritten(g: Geometry, ws: seq<bool>, h: seq<Access>, s: nat, t: nat)
    requires g.assoc > 0 && g.TagShift() > 0 && |ws| == |h| && s < g.Sets()
    requires t in CleanAll(AfterWb(Cold(g), g.assoc, ws, MaskedSteps(g, h))[s])
    ensures DirtyIn(AfterWb(Cold(g), g.assoc, ws, MaskedSteps(g, h))[s], t) <==> Written(g.assoc, WritesTo(g, ws, h, s), t)
  {
    hide CleanAll, DirtyIn, Written, RunWb, AfterWb, WritesTo, ResidentAfter;
    SetIsRun(g, ws, h, s);
    ResidentStep(g.assoc, WritesTo(g, ws, h, s), t);
    DirtyIffWritten(g.assoc, WritesTo(g, ws, h, s), t);
  }

  /** And in every set the lines that became dirty are those written back and those still dirty. */
  lemma CacheDirtyConserved(g: Geometry, ws: seq<bool>, h: seq<Access>, s: nat)
    requires g.assoc > 0 && g.TagShift() > 0 && |ws| == |h| && s < g.Sets()
    ensures var c, u := AfterWb(Cold(g), g.assoc, ws, MaskedSteps(g, h)), WritesTo(g, ws, h, s);
            DirtyEvictions(Fill(0, g.assoc), u) + DirtyCount(c[s]) == Dirtied(g.assoc, u)
  {
    hide DirtyCount, RunWb, AfterWb, WritesTo, Dirtied, DirtyEvictions;
    SetIsRun(g, ws, h, s);
    DirtyConserved(g.assoc, WritesTo(g, ws, h, s));
  }

  // ----- the code

  class WbCache {
    const assoc: nat
    const sets: nat
    const lineSizeBits: nat
    const tagShift: nat
    const tags: array<nat>

    ghost function Geo(): Geometry {
      Geometry(assoc, if tagShift < lineSizeBits then 0 else tagShift - lineSizeBits, lineSizeBits)
    }

    ghost predicate Valid() {
      && assoc > 0
      && 0 < lineSizeBits <= tagShift
      && sets == Geo().Sets()
      && tags.Length == sets * assoc
    }

    ghost function Contents(): (c: Tags)
      requires Valid()
      reads tags
      ensures Fits(c, assoc) && |c| == sets
    {
      Rows(tags[..], sets, assoc)
    }

    /** cachesim_initcache followed by cachesim_clearcache. */
    constructor (size: nat, assoc: nat, lineSize: nat, ghost g: Geometry)
      requires Describes(g, size, assoc, lineSize)
      ensures Valid() && Geo() == g && Contents() == Cold(g)
      ensures fresh(tags)
    {
      DescribedPasses(g, size, assoc, lineSize);
      var sets := size / lineSize / assoc;
      var lineSizeBits := Log2(lineSize);
      var setBits := Log2(sets);
      if lineSizeBits != -1 { Pow2Injective(lineSizeBits, g.lineBits); }
      if setBits != -1 { Pow2Injective(setBits, g.setBits); }
      this.assoc, this.sets, this.lineSizeBits, this.tagShift := assoc, sets, lineSizeBits, lineSizeBits + setBits;
      tags := new nat[sets * assoc];
      new;
      var i := 0;
      while i < tags.Length
        invariant 0 <= i <= tags.Length
        invariant forall k :: 0 <= k < i ==> tags[k] == 0
      {
        tags[i] := 0;
        i := i + 1;
      }
      RowsOfZeros(tags[..], sets, assoc);
    }

    /** The search loop of cachesim_setref_wb: the first way that holds tag, or assoc. */
    method Find(setNo: nat, tag: nat) returns (i: nat)
      requires Valid() && setNo < sets
      ensures i <= assoc && (i < assoc ==> Clean(Contents()[setNo][i]) == tag)
      ensures forall k :: 0 <= k < i ==> Clean(Contents()[setNo][k]) != tag
    {
      hide Rows, Clean;
      RowEntries(tags[..], sets, assoc, setNo);
      ghost var w := Contents()[setNo];
      i := 0;
      while i < assoc && Clean(tags[setNo * assoc + i]) != tag
        invariant 0 <= i <= assoc
        invariant forall k :: 0 <= k < i ==> Clean(w[k]) != tag
      {
        assert w[i] == tags[setNo * assoc + i];
        i := i + 1;
      }
    }

    /** cachesim_setref_wb. */
    method SetRefWb(write: bool, setNo: nat, tag: nat) returns (o: WbOutcome)
      requires Valid() && setNo < sets && tag % 2 == 0
      modifies tags
      ensures Contents() == ReferWb(old(Contents()), assoc, write, Place(setNo, tag))
      ensures o == OutcomeWb(old(Contents())[setNo], tag)
    {
      hide TouchWb, OutcomeWb, RemoveAt, Rows;
      RowEntries(tags[..], sets, assoc, setNo);
      ghost var w := Contents()[setNo];
      var i := Find(setNo, tag);
      if i < assoc {
        HitShape(w, write, tag, i);
        Shift(setNo, i, Or(tags[setNo * assoc + i], write));
        return WbHit;
      }
      assert |w| == assoc && w == Contents()[setNo];
      MissShape(w, write, tag);
      var tmpTag := tags[setNo * assoc + assoc - 1];
      Shift(setNo, assoc - 1, Or(tag, write));
      return if Dirty(tmpTag) then WbMissDirty else WbMiss;
    }

    /** The shuffle at the end of a reference: entry e takes the front, way i is vacated.  On a hit in
        the first way the source only sets the bit, which is the same. */
    method Shift(setNo: nat, i: nat, e: nat)
      requires Valid() && setNo < sets && i < assoc
      modifies tags
      ensures Contents() == old(Contents())[setNo := [e] + RemoveAt(old(Contents())[setNo], i)]
    {
      RowBound(setNo, sets, assoc);
      ghost var t := tags[..];
      Install(tags, setNo * assoc, i, e);
      InstallRow(t, tags[..], sets, assoc, setNo, i, e);
    }

    /** cachesim_ref_wb. */
    method Ref(write: bool, a: nat, size: nat) returns (o: WbOutcome)
      requires Valid()
      modifies tags
      ensures (o, Contents()) == RefWb(old(Contents()), assoc, write, MaskedPlaces(Geo(), Access(a, size)))
    {
      hide Pow2, Quot, Rem, Rows, TouchWb, OutcomeWb;
      var last := (a + size - 1) % WORD;
      var set1 := Rem(Shr(a, lineSizeBits), sets);
      var set2 := Rem(Shr(last, lineSizeBits), sets);
      var tag := Quot(Rem(a, UINT), Pow2(tagShift)) * Pow2(tagShift);
      MaskedIsEven(Geo(), a);
      if set1 == set2 {
        ReferOneWb(Contents(), assoc, write, Place(set1, tag));
        o := SetRefWb(write, set1, tag);
        return o;
      } else if Rem(set1 + 1, sets) == set2 {
        var tag2 := Quot(Rem(last, UINT), Pow2(tagShift)) * Pow2(tagShift);
        MaskedIsEven(Geo(), last);
        ReferTwoWb(Contents(), assoc, write, Place(set1, tag), Place(set2, tag2));
        var res1 := SetRefWb(write, set1, tag);
        var res2 := SetRefWb(write, set2, tag2);
        if res1 == WbMissDirty || res2 == WbMissDirty {
          return WbMissDirty;
        }
        return if res1 == WbMiss || res2 == WbMiss then WbMiss else WbHit;
      }
      return WbPanic;
    }
  }

  lemma ReferOneWb(c: Tags, assoc: nat, write: bool, p: Place)
    requires Fits(c, assoc) && p.setNo < |c|
    ensures ReferAllWb(c, assoc, write, [p]) == ReferWb(c, assoc, write, p)
    ensures OutcomeAllWb(c, assoc, write, [p]) == OutcomeWb(c[p.setNo], p.tag)
  {
    assert Front([p]) == [];
  }

  lemma ReferTwoWb(c: Tags, assoc: nat, write: bool, p: Place, q: Place)
    requires Fits(c, assoc) && p.setNo < |c| && q.setNo < |c|
    ensures var c' := ReferWb(c, assoc, write, p);
            && ReferAllWb(c, assoc, write, [p, q]) == ReferWb(c', assoc, write, q)
            && OutcomeAllWb(c, assoc, write, [p, q])
               == Worse(OutcomeWb(c[p.setNo], p.tag), OutcomeWb(c'[q.setNo], q.tag))
  {
    ReferOneWb(c, assoc, write, p);
    assert Front([p, q]) == [p];
  }
}
