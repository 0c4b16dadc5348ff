/** callgrind/sim.c, cache-use simulation, one set: the low tag bits name a slot, and the slot keeps
    the use record of the line resident in that way. */
module CacheUse {
  import opened Words
  import opened Lru

  /** An entry is a multiple of t (the tag) plus a number below t (the slot). */
  function TagPart(t: nat, e: nat): nat
    requires t > 0
  {
    Quot(e, t) * t
  }

  function SlotPart(t: nat, e: nat): nat
    requires t > 0
  {
    Rem(e, t)
  }

  ghost function TagParts(t: nat, s: seq<nat>): (r: seq<nat>)
    requires t > 0
    ensures |r| == |s| && forall k :: 0 <= k < |s| ==> r[k] == TagPart(t, s[k])
  {
    seq(|s|, k requires 0 <= k < |s| => TagPart(t, s[k]))
  }

  ghost function SlotParts(t: nat, s: seq<nat>): (r: seq<nat>)
    requires t > 0
    ensures |r| == |s| && forall k :: 0 <= k < |s| ==> r[k] == SlotPart(t, s[k])
  {
    seq(|s|, k requires 0 <= k < |s| => SlotPart(t, s[k]))
  }

  lemma Combine(t: nat, tag: nat, slot: nat)
    requires t > 0 && Rem(tag, t) == 0 && slot < t
    ensures TagPart(t, tag + slot) == tag && SlotPart(t, tag + slot) == slot
  {
    QuotRem(tag, t);
    RemUnique(tag + slot, t, Quot(tag, t), slot);
  }

  lemma Split(t: nat, e: nat)
    requires t > 0
    ensures TagPart(t, e) + SlotPart(t, e) == e && Rem(TagPart(t, e), t) == 0
  {
    QuotRem(e, t);
    RemUnique(TagPart(t, e), t, Quot(e, t), 0);
  }

  /** The slots of s are exactly 0 .. |s| - 1, in some order. */
  ghost predicate Permutation(s: seq<nat>) {
    && Distinct(s)
    && forall k :: 0 <= k < |s| ==> s[k] < |s|
  }

  /** One set: its entries, and per slot the line loaded there and how often it was used. */
  datatype SetUse = SetUse(entries: seq<nat>, lines: seq<nat>, counts: seq<nat>)

  ghost predicate Valid(t: nat, u: SetUse) {
    && t > 0 && u.entries != [] && |u.lines| == |u.counts| == |u.entries|
    && forall k {:trigger SlotPart(t, u.entries[k])} :: 0 <= k < |u.entries| ==> SlotPart(t, u.entries[k]) < |u.entries|
  }

  /** A reference to a tag, coming from the given memory line. */
  datatype Use = Use(tag: nat, memline: nat)

  /** The way a reference goes to keeps its slot: a hit counts one more use in its record, a miss
      restarts the record for the new line. */
  ghost function TouchUse(t: nat, u: SetUse, x: Use): (u': SetUse)
    requires Valid(t, u) && Rem(x.tag, t) == 0
    ensures Valid(t, u') && |u'.entries| == |u.entries|
  {
    var tags := TagParts(t, u.entries);
    var v := Victim(tags, x.tag);
    var slot := SlotPart(t, u.entries[v]);
    var hit := tags[v] == x.tag;
    Combine(t, x.tag, slot);
    SetUse([x.tag + slot] + RemoveAt(u.entries, v),
           u.lines[slot := if hit then u.lines[slot] else x.memline],
           u.counts[slot := if hit then u.counts[slot] + 1 else 1])
  }

  lemma SlotsKept(t: nat, s: seq<nat>, tag: nat, v: nat)
    requires t > 0 && Rem(tag, t) == 0 && v < |s|
    ensures var s' := [tag + SlotPart(t, s[v])] + RemoveAt(s, v);
            && SlotParts(t, s') == [SlotParts(t, s)[v]] + RemoveAt(SlotParts(t, s), v)
            && TagParts(t, s') == [tag] + RemoveAt(TagParts(t, s), v)
  {
    Combine(t, tag, SlotPart(t, s[v]));
  }

  lemma MovedPermutation(s: seq<nat>, v: nat)
    requires v < |s| && Permutation(s)
    ensures Permutation([s[v]] + RemoveAt(s, v))
  {
  }

  /** A reference only rearranges the slots. */
  lemma TouchPermutes(t: nat, u: SetUse, x: Use)
    requires Valid(t, u) && Rem(x.tag, t) == 0 && Permutation(SlotParts(t, u.entries))
    ensures Permutation(SlotParts(t, TouchUse(t, u, x).entries))
  {
    var v := Victim(TagParts(t, u.entries), x.tag);
    SlotsKept(t, u.entries, x.tag, v);
    MovedPermutation(SlotParts(t, u.entries), v);
  }

  lemma HitIsVictim(s: seq<nat>, tag: nat)
    requires s != []
    ensures s[Victim(s, tag)] == tag <==> tag in s
  {
  }

  /** The tags of the ways form the plain LRU set. */
  lemma TagsTouch(t: nat, u: SetUse, x: Use)
    requires Valid(t, u) && Rem(x.tag, t) == 0
    ensures TagParts(t, TouchUse(t, u, x).entries) == Touch(TagParts(t, u.entries), x.tag)
  {
    SlotsKept(t, u.entries, x.tag, Victim(TagParts(t, u.entries), x.tag));
  }

  // ----- runs of one set

  ghost predicate Aligned(t: nat, h: seq<Use>)
    requires t > 0
  {
    forall k :: 0 <= k < |h| ==> Rem(h[k].tag, t) == 0
  }

  ghost function RunUse(t: nat, u: SetUse, h: seq<Use>): (u': SetUse)
    requires Valid(t, u) && Aligned(t, h)
    ensures Valid(t, u') && |u'.entries| == |u.entries|
  {
    if h == [] then u else TouchUse(t, RunUse(t, u, Front(h)), Last(h))
  }

  ghost function UseTags(h: seq<Use>): (r: seq<nat>)
    ensures |r| == |h| && forall k :: 0 <= k < |h| ==> r[k] == h[k].tag
  {
    seq(|h|, k requires 0 <= k < |h| => h[k].tag)
  }

  lemma {:induction false} TagsRun(t: nat, u: SetUse, h: seq<Use>)
    requires Valid(t, u) && Aligned(t, h)
    ensures TagParts(t, RunUse(t, u, h).entries) == Run(TagParts(t, u.entries), UseTags(h))
  {
    if h != [] {
      TagsRun(t, u, Front(h));
      assert Front(UseTags(h)) == UseTags(Front(h));
      TagsTouch(t, RunUse(t, u, Front(h)), Last(h));
    }
  }

  lemma {:induction false} RunPermutes(t: nat, u: SetUse, h: seq<Use>)
    requires Valid(t, u) && Aligned(t, h) && Permutation(SlotParts(t, u.entries))
    ensures Permutation(SlotParts(t, RunUse(t, u, h).entries))
  {
    if h != [] {
      RunPermutes(t, u, Front(h));
      TouchPermutes(t, RunUse(t, u, Front(h)), Last(h));
    }
  }

  /** cachesim_clearcache: way i of a set starts empty and names slot i. */
  ghost function Fresh(t: nat, n: nat): (u: SetUse)
    requires 0 < n <= t
    ensures Valid(t, u) && |u.entries| == n
    ensures TagParts(t, u.entries) == Fill(0, n) && Permutation(SlotParts(t, u.entries))
  {
    var u := SetUse(seq(n, i => i), Fill(0, n), Fill(0, n));
    SmallEntries(t, u.entries);
    u
  }

  lemma SmallEntries(t: nat, s: seq<nat>)
    requires 0 < |s| <= t && forall k :: 0 <= k < |s| ==> s[k] == k
    ensures SlotParts(t, s) == s && TagParts(t, s) == Fill(0, |s|)
  {
    forall k | 0 <= k < |s|
      ensures TagPart(t, k) == 0 && SlotPart(t, k) == k
    {
      QuotZero(k, t);
    }
  }

  // ----- the record of a resident line, by the history of plain LRU alone

  ghost predicate ResidentAfter(n: nat, h: seq<Use>, tag: nat)
    requires n > 0
  {
    tag in Run(Fill(0, n), UseTags(h))
  }

  /** The line of the reference that installed tag last. */
  ghost function InstalledBy(n: nat, h: seq<Use>, tag: nat): nat
    requires n > 0
  {
    if h == [] then 0
    else if Last(h).tag == tag && !ResidentAfter(n, Front(h), tag) then Last(h).memline
    else InstalledBy(n, Front(h), tag)
  }

  /** The references to tag since it was installed, that one included. */
  ghost function UsesSince(n: nat, h: seq<Use>, tag: nat): nat
    requires n > 0
  {
    if h == [] then 0
    else if Last(h).tag != tag then UsesSince(n, Front(h), tag)
    else 1 + if ResidentAfter(n, Front(h), tag) then UsesSince(n, Front(h), tag) else 0
  }

  /** The slot a resident tag names. */
  ghost function SlotOf(t: nat, u: SetUse, tag: nat): (slot: nat)
    requires Valid(t, u) && tag in TagParts(t, u.entries)
    ensures slot < |u.entries|
  {
    SlotPart(t, u.entries[IndexOf(TagParts(t, u.entries), tag)])
  }

  /** A reference to another tag leaves the record of a line that stays resident alone. */
  lemma OtherSlotKept(t: nat, u: SetUse, x: Use, tag: nat)
    requires Valid(t, u) && Permutation(SlotParts(t, u.entries)) && Rem(x.tag, t) == 0 && x.tag != tag
    requires tag in TagParts(t, TouchUse(t, u, x).entries)
    ensures var u' := TouchUse(t, u, x);
            && tag in TagParts(t, u.entries)
            && SlotOf(t, u', tag) == SlotOf(t, u, tag)
            && u'.lines[SlotOf(t, u, tag)] == u.lines[SlotOf(t, u, tag)]
            && u'.counts[SlotOf(t, u, tag)] == u.counts[SlotOf(t, u, tag)]
  {
    hide IndexOf, TagPart, Rem;
    var tags := TagParts(t, u.entries);
    var k, v := IndexOf(tags, tag), Victim(tags, x.tag);
    TagsTouch(t, u, x);
    IndexAfterTouch(tags, x.tag, tag);
    assert SlotParts(t, u.entries)[k] != SlotParts(t, u.entries)[v];
  }

  lemma OwnSlot(t: nat, u: SetUse, x: Use)
    requires Valid(t, u) && Rem(x.tag, t) == 0
    ensures var u' := TouchUse(t, u, x);
            && x.tag in TagParts(t, u'.entries)
            && (var slot := SlotOf(t, u', x.tag);
                if x.tag in TagParts(t, u.entries)
                then slot == SlotOf(t, u, x.tag) && u'.lines[slot] == u.lines[slot] && u'.counts[slot] == u.counts[slot] + 1
                else u'.lines[slot] == x.memline && u'.counts[slot] == 1)
  {
    var u' := TouchUse(t, u, x);
    var v := Victim(TagParts(t, u.entries), x.tag);
    TagsTouch(t, u, x);
    IndexOfIs(TagParts(t, u'.entries), x.tag, 0);
    assert TagParts(t, u'.entries)[0] == x.tag;
    Combine(t, x.tag, SlotPart(t, u.entries[v]));
    HitIsVictim(TagParts(t, u.entries), x.tag);
  }

  /** The slot named by a resident line holds the record of that line: the memory line it was loaded
      from and the number of its uses since. */
  lemma {:induction false} RecordIsOfResident(t: nat, n: nat, h: seq<Use>, tag: nat)
    requires 0 < n <= t && Aligned(t, h) && ResidentAfter(n, h, tag)
    ensures var u := RunUse(t, Fresh(t, n), h);
            && tag in TagParts(t, u.entries)
            && u.lines[SlotOf(t, u, tag)] == InstalledBy(n, h, tag)
            && u.counts[SlotOf(t, u, tag)] == UsesSince(n, h, tag)
  {
    TagsRun(t, Fresh(t, n), h);
    if h != [] {
      var u, x := RunUse(t, Fresh(t, n), Front(h)), Last(h);
      TagsRun(t, Fresh(t, n), Front(h));
      if x.tag == tag {
        OwnSlot(t, u, x);
        if ResidentAfter(n, Front(h), tag) {
          RecordIsOfResident(t, n, Front(h), tag);
        }
      } else {
        RunPermutes(t, Fresh(t, n), Front(h));
        OtherSlotKept(t, u, x, tag);
        RecordIsOfResident(t, n, Front(h), tag);
      }
    }
  }
}
