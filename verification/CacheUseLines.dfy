/** The memory lines in the use records (callgrind/sim.c, UPDATE_USE): which line the slot of a resident
    way names, told from the bytes of the accesses and the states before and after them. */
module CacheUseLines {
  import opened Words
  import opened Lru
  import opened CacheModel
  import opened AccessBytes
  import opened CacheUse
  import opened CacheUseSim

  ghost predicate ResidentIn(g: Geometry, h: seq<Access>, s: nat, tag: nat)
    requires 0 < g.assoc <= Pow2(g.TagShift()) && s < g.Sets()
  {
    tag in TagParts(Pow2(g.TagShift()), AfterUse(g, h)[s].entries)
  }

  /** The memory line in the slot of a resident tag. */
  ghost function RecordedLine(g: Geometry, h: seq<Access>, s: nat, tag: nat): nat
    requires 0 < g.assoc <= Pow2(g.TagShift()) && s < g.Sets() && ResidentIn(g, h, s, tag)
  {
    var u := AfterUse(g, h)[s];
    u.lines[SlotOf(Pow2(g.TagShift()), u, tag)]
  }

  /** Access k brought the tag into set s, and it has been there since. */
  ghost predicate InstalledAt(g: Geometry, h: seq<Access>, s: nat, tag: nat, k: nat)
    requires 0 < g.assoc <= Pow2(g.TagShift()) && s < g.Sets()
  {
    k < |h| && !ResidentIn(g, h[..k], s, tag) && forall j :: k < j <= |h| ==> ResidentIn(g, h[..j], s, tag)
  }

  /** The tag has been in set s from the start. */
  ghost predicate NeverInstalled(g: Geometry, h: seq<Access>, s: nat, tag: nat)
    requires 0 < g.assoc <= Pow2(g.TagShift()) && s < g.Sets()
  {
    forall j :: 0 <= j <= |h| ==> ResidentIn(g, h[..j], s, tag)
  }

  /** line starts a memory line of set s with the given masked tag. */
  ghost predicate LineOf(g: Geometry, s: nat, tag: nat, line: nat) {
    line % g.LineSize() == 0 && line / g.LineSize() % g.Sets() == s && Masked(g, line) == tag
  }

  lemma TargetIsLine(g: Geometry, x: nat)
    requires g.TagShift() < 32
    ensures var t := TargetOf(g, x);
            LineOf(g, t.setNo, t.use.tag, t.use.memline) && t.use.memline <= x < t.use.memline + g.LineSize()
  {
    hide Masked;
    var l, b := g.LineSize(), Block(g, x);
    var line := LineAddress(g, x);
    QuotRem(x, l);
    assert line == b * l;
    RemUnique(line, l, b, 0);
    assert InBlock(g, x, b) && InBlock(g, line, b);
    MaskedOfLine(g, x, line, b);
  }

  /** What one access does to one set: nothing, or one reference that comes from its first or last byte. */
  lemma SetStep(g: Geometry, c: Uses, a: Access, s: nat) returns (touched: bool, x: nat)
    requires SoundFor(g, c) && s < g.Sets()
    ensures !touched ==> Read(g, c, a).1[s] == c[s]
    ensures touched ==>
              && (x == a.addr || x == LastByte(a)) && TargetOf(g, x).setNo == s
              && Rem(TargetOf(g, x).use.tag, Pow2(g.TagShift())) == 0
              && Read(g, c, a).1[s] == TouchUse(Pow2(g.TagShift()), c[s], TargetOf(g, x).use)
  {
    hide TouchUse;
    MaskedAligned(g, a.addr);
    MaskedAligned(g, LastByte(a));
    touched, x := false, a.addr;
    if Targets(g, a).Some? {
      TargetsFit(g, a);
      var t, xs := Pow2(g.TagShift()), Targets(g, a).value;
      ReferAllUpTo2(t, g.assoc, c, xs);
      if xs[0].setNo == s {
        touched := true;
      } else if |xs| == 2 && xs[1].setNo == s {
        touched, x := true, LastByte(a);
      }
    }
  }

  lemma ReferAllUpTo2(t: nat, assoc: nat, c: Uses, xs: seq<Target>)
    requires t > 0 && Sound(t, assoc, c) && Fit(t, xs, |c|) && 1 <= |xs| <= 2
    ensures ReferAllUse(t, assoc, c, xs) ==
            if |xs| == 1 then ReferUse(t, assoc, c, xs[0]) else ReferUse(t, assoc, ReferUse(t, assoc, c, xs[0]), xs[1])
  {
    hide ReferUse;
    assert Front(xs[..1]) == [];
    if |xs| == 2 {
      assert Front(xs) == xs[..1];
    }
  }

  /** What the last access does to the record of a tag that is resident after it. */
  lemma RecordStep(g: Geometry, h: seq<Access>, s: nat, tag: nat)
    requires 0 < g.assoc <= Pow2(g.TagShift()) && g.TagShift() < 32 && s < g.Sets() && h != [] && ResidentIn(g, h, s, tag)
    ensures ResidentIn(g, Front(h), s, tag) ==> RecordedLine(g, h, s, tag) == RecordedLine(g, Front(h), s, tag)
    ensures !ResidentIn(g, Front(h), s, tag) ==>
              var line := RecordedLine(g, h, s, tag);
              LineOf(g, s, tag, line) &&
              (line <= Last(h).addr < line + g.LineSize() || line <= LastByte(Last(h)) < line + g.LineSize())
  {
    hide TouchUse, LineOf, LineAddress, Masked;
    var t, c := Pow2(g.TagShift()), AfterUse(g, Front(h));
    var touched, x := SetStep(g, c, Last(h), s);
    if touched {
      TargetIsLine(g, x);
      var u := TargetOf(g, x).use;
      if u.tag == tag {
        OwnSlot(t, c[s], u);
      } else {
        SlotsArePermuted(g, Front(h));
        OtherSlotKept(t, c[s], u, tag);
      }
    }
  }

  /** The slot of a resident line that an access brought in names the line of one of its bytes. */
  lemma {:induction false} RecordNamesLine(g: Geometry, h: seq<Access>, s: nat, tag: nat, k: nat)
    requires 0 < g.assoc <= Pow2(g.TagShift()) && g.TagShift() < 32 && s < g.Sets() && InstalledAt(g, h, s, tag, k)
    requires Proper(h[k])
    ensures ResidentIn(g, h, s, tag)
    ensures var line := RecordedLine(g, h, s, tag);
            LineOf(g, s, tag, line) && exists x: nat :: ByteOf(h[k], x) && line <= x < line + g.LineSize()
    decreases |h|
  {
    hide LineOf, RecordedLine, ResidentIn;
    assert h[..|h|] == h && h[..|h| - 1] == Front(h);
    RecordStep(g, h, s, tag);
    LastByteIs(h[k]);
    if k == |h| - 1 {
      assert ByteOf(h[k], h[k].addr) && ByteOf(h[k], LastByte(h[k]));
    } else {
      assert forall j :: 0 <= j < |h| ==> Front(h)[..j] == h[..j];
      RecordNamesLine(g, Front(h), s, tag, k);
    }
  }

  /** A tag that was never brought in is the 0 of the empty ways, and its record is still the initial one. */
  lemma {:induction false} NeverInstalledIsZero(g: Geometry, h: seq<Access>, s: nat, tag: nat)
    requires 0 < g.assoc <= Pow2(g.TagShift()) && g.TagShift() < 32 && s < g.Sets() && NeverInstalled(g, h, s, tag)
    ensures ResidentIn(g, h, s, tag) && tag == 0 && RecordedLine(g, h, s, tag) == 0
    decreases |h|
  {
    assert h[..|h|] == h;
    if h != [] {
      assert forall j :: 0 <= j < |h| ==> Front(h)[..j] == h[..j];
      NeverInstalledIsZero(g, Front(h), s, tag);
      RecordStep(g, h, s, tag);
    }
  }

  lemma {:induction false} InstalledOrNot(g: Geometry, h: seq<Access>, s: nat, tag: nat) returns (k: nat)
    requires 0 < g.assoc <= Pow2(g.TagShift()) && s < g.Sets() && ResidentIn(g, h, s, tag) && !NeverInstalled(g, h, s, tag)
    ensures InstalledAt(g, h, s, tag, k)
    decreases |h|
  {
    hide ResidentIn;
    assert h[..|h|] == h;
    k := |h| - 1;
    assert h[..k] == Front(h);
    if ResidentIn(g, Front(h), s, tag) {
      assert forall j :: 0 <= j < |h| ==> Front(h)[..j] == h[..j];
      k := InstalledOrNot(g, Front(h), s, tag);
    }
  }

  /** In every reachable state the slot of a resident tag names a line of its set and tag, unless the tag
      is that of the empty ways, was never brought in, and the set is not the first: then the record still
      names line 0. */
  lemma RecordedLineIff(g: Geometry, h: seq<Access>, s: nat, tag: nat)
    requires 0 < g.assoc <= Pow2(g.TagShift()) && g.TagShift() < 32 && s < g.Sets() && ResidentIn(g, h, s, tag)
    requires forall k :: 0 <= k < |h| ==> Proper(h[k])
    ensures LineOf(g, s, tag, RecordedLine(g, h, s, tag)) <==> s == 0 || !NeverInstalled(g, h, s, tag)
  {
    hide ResidentIn, RecordedLine, InstalledAt;
    if NeverInstalled(g, h, s, tag) {
      NeverInstalledIsZero(g, h, s, tag);
      LineZero(g, s);
    } else {
      var k := InstalledOrNot(g, h, s, tag);
      assert k < |h| by { InstalledBefore(g, h, s, tag, k); }
      RecordNamesLine(g, h, s, tag, k);
    }
  }

  lemma InstalledBefore(g: Geometry, h: seq<Access>, s: nat, tag: nat, k: nat)
    requires 0 < g.assoc <= Pow2(g.TagShift()) && s < g.Sets() && InstalledAt(g, h, s, tag, k)
    ensures k < |h|
  {
  }

  lemma LineZero(g: Geometry, s: nat)
    requires g.TagShift() < 32 && s < g.Sets()
    ensures LineOf(g, s, 0, 0) <==> s == 0
  {
    QuotZero(0, g.LineSize());
    QuotZero(0, g.Sets());
    QuotZero(0, UINT);
    QuotZero(0, Pow2(g.TagShift()));
  }

  /** It does so after the first access to line 1 of a cold cache of two sets or more, which is a hit. */
  lemma LineOneIsNotLoaded(g: Geometry)
    requires 0 < g.assoc <= Pow2(g.TagShift()) && g.setBits > 0 && g.TagShift() < 32
    ensures var h := [Access(g.LineSize(), 1)];
            && Block(g, g.LineSize()) == 1 && Masked(g, g.LineSize()) == 0 && g.Sets() > 1
            && ResidentIn(g, h, 1, 0) && NeverInstalled(g, h, 1, 0) && !LineOf(g, 1, 0, RecordedLine(g, h, 1, 0))
  {
    hide Masked, TouchUse, RecordedLine;
    var a := Access(g.LineSize(), 1);
    var h := [a];
    LineOneIsZero(g);
    var t, x := Pow2(g.TagShift()), TargetOf(g, g.LineSize());
    assert Front(h) == [] && h[..0] == [] && h[..1] == h;
    assert AfterUse(g, [])[1] == CacheUse.Fresh(t, g.assoc);
    assert TagParts(t, AfterUse(g, [])[1].entries)[0] == 0;
    MaskedAligned(g, a.addr);
    assert ReferAllUse(t, g.assoc, Start(g), [x]) == ReferUse(t, g.assoc, Start(g), x) by {
      ReferAllUpTo2(t, g.assoc, Start(g), [x]);
    }
    assert AfterUse(g, h)[1] == TouchUse(t, AfterUse(g, [])[1], x.use);
    OwnSlot(t, AfterUse(g, [])[1], x.use);
    RecordedLineIff(g, h, 1, 0);
  }

  lemma LineOneIsZero(g: Geometry)
    requires g.setBits > 0 && g.TagShift() < 32
    ensures Block(g, g.LineSize()) == 1 && Masked(g, g.LineSize()) == 0 && 1 < g.Sets() && g.LineSize() < WORD
    ensures LastByte(Access(g.LineSize(), 1)) == g.LineSize() && Low(1, g.setBits) == 1
  {
    hide Masked, TagOf;
    RemUnique(g.LineSize(), g.LineSize(), 1, 0);
    Pow2Grows(g.lineBits, 32);
    Pow2Is32();
    Pow2Grows(0, g.setBits);
    Pow2Grows(0, 32 - g.lineBits);
    QuotZero(1, Lines32(g));
    QuotZero(1, g.Sets());
    MaskedIsTagOf(g, g.LineSize());
    TagOfZero(g, 1);
  }
}
