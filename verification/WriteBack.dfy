/** callgrind/sim.c, write-back simulation: the dirty state of a line is hidden in bit 0 of its tag. */
module WriteBack {
  import opened Lru

  // ----- entries: an even tag, plus one when the line is dirty

  function Clean(e: nat): nat {
    e - e % 2
  }

  predicate Dirty(e: nat) {
    e % 2 == 1
  }

  /** e | ref, where ref is CACHELINE_DIRTY for a write and 0 for a read. */
  function Or(e: nat, write: bool): nat {
    if write && e % 2 == 0 then e + 1 else e
  }

  ghost function CleanAll(s: seq<nat>): (r: seq<nat>)
    ensures |r| == |s| && forall k :: 0 <= k < |s| ==> r[k] == Clean(s[k])
  {
    seq(|s|, k requires 0 <= k < |s| => Clean(s[k]))
  }

  datatype WbOutcome = WbHit | WbMiss | WbMissDirty | WbPanic

  /** One reference to an even tag in one set: the referenced line moves to the front and becomes
      dirty on a write; a miss installs it instead of the last one. */
  ghost function TouchWb(s: seq<nat>, write: bool, tag: nat): (r: seq<nat>)
    requires s != []
    ensures |r| == |s|
  {
    var i := IndexOf(CleanAll(s), tag);
    [Or(if i < |s| then s[i] else tag, write)] + RemoveAt(s, Victim(CleanAll(s), tag))
  }

  ghost function OutcomeWb(s: seq<nat>, tag: nat): WbOutcome
    requires s != []
  {
    if IndexOf(CleanAll(s), tag) < |s| then WbHit else if Dirty(Last(s)) then WbMissDirty else WbMiss
  }

  lemma HitShape(s: seq<nat>, write: bool, tag: nat, i: nat)
    requires i < |s| && Clean(s[i]) == tag && forall k :: 0 <= k < i ==> Clean(s[k]) != tag
    ensures TouchWb(s, write, tag) == [Or(s[i], write)] + RemoveAt(s, i) && OutcomeWb(s, tag) == WbHit
  {
    IndexOfIs(CleanAll(s), tag, i);
  }

  lemma MissShape(s: seq<nat>, write: bool, tag: nat)
    requires s != [] && forall k :: 0 <= k < |s| ==> Clean(s[k]) != tag
    ensures TouchWb(s, write, tag) == [Or(tag, write)] + RemoveAt(s, |s| - 1)
    ensures OutcomeWb(s, tag) == if Dirty(Last(s)) then WbMissDirty else WbMiss
  {
  }

  /** Dropping the dirty bits gives the plain LRU set. */
  lemma CleanTouch(s: seq<nat>, write: bool, tag: nat)
    requires s != [] && tag % 2 == 0
    ensures CleanAll(TouchWb(s, write, tag)) == Touch(CleanAll(s), tag)
    ensures OutcomeWb(s, tag) == WbHit <==> tag in CleanAll(s)
  {
    var v := Victim(CleanAll(s), tag);
    assert CleanAll(RemoveAt(s, v)) == RemoveAt(CleanAll(s), v);
  }

  lemma CleanZeros(n: nat)
    ensures CleanAll(Fill(0, n)) == Fill(0, n)
  {
    assert forall k :: 0 <= k < n ==> CleanAll(Fill(0, n))[k] == 0;
  }

  // ----- runs of one set

  datatype Write = Write(write: bool, tag: nat)

  ghost predicate Even(h: seq<Write>) {
    forall k :: 0 <= k < |h| ==> h[k].tag % 2 == 0
  }

  function TagsOf(h: seq<Write>): (r: seq<nat>)
    ensures |r| == |h| && forall k :: 0 <= k < |h| ==> r[k] == h[k].tag
  {
    seq(|h|, k requires 0 <= k < |h| => h[k].tag)
  }

  ghost function RunWb(s: seq<nat>, h: seq<Write>): (r: seq<nat>)
    requires s != []
    ensures |r| == |s|
  {
    if h == [] then s else TouchWb(RunWb(s, Front(h)), Last(h).write, Last(h).tag)
  }

  lemma {:induction false} CleanRun(s: seq<nat>, h: seq<Write>)
    requires s != [] && Even(h)
    ensures CleanAll(RunWb(s, h)) == Run(CleanAll(s), TagsOf(h))
  {
    if h != [] {
      CleanRun(s, Front(h));
      assert Front(TagsOf(h)) == TagsOf(Front(h));
      CleanTouch(RunWb(s, Front(h)), Last(h).write, Last(h).tag);
    }
  }

  /** Resident in an initially empty LRU set of n ways: defined without dirty bits. */
  ghost predicate ResidentAfter(n: nat, h: seq<Write>, t: nat)
    requires n > 0
  {
    t in Run(Fill(0, n), TagsOf(h))
  }

  /** Line t was written since it was last installed, by the history alone. */
  ghost predicate Written(n: nat, h: seq<Write>, t: nat)
    requires n > 0
  {
    h != [] &&
    if Last(h).tag == t then Last(h).write || (ResidentAfter(n, Front(h), t) && Written(n, Front(h), t))
    else Written(n, Front(h), t)
  }

  ghost predicate DirtyIn(s: seq<nat>, t: nat) {
    IndexOf(CleanAll(s), t) < |s| && Dirty(s[IndexOf(CleanAll(s), t)])
  }

  /** The line just referenced is dirty if it is written now or was dirty before. */
  lemma DirtyWhenTouched(s: seq<nat>, write: bool, t: nat)
    requires s != [] && t % 2 == 0
    ensures DirtyIn(TouchWb(s, write, t), t) <==> write || DirtyIn(s, t)
    ensures t in CleanAll(s) <==> IndexOf(CleanAll(s), t) < |s|
  {
    var s' := TouchWb(s, write, t);
    assert CleanAll(s')[0] == t;
    IndexOfIs(CleanAll(s'), t, 0);
  }

  /** Any other line that stays resident stays as dirty as it was. */
  lemma DirtyWhenOther(s: seq<nat>, write: bool, tag: nat, t: nat)
    requires s != [] && tag % 2 == 0 && t != tag && t in Touch(CleanAll(s), tag)
    ensures t in CleanAll(s) && (DirtyIn(TouchWb(s, write, tag), t) <==> DirtyIn(s, t))
  {
    hide IndexOf;
    CleanTouch(s, write, tag);
    IndexAfterTouch(CleanAll(s), tag, t);
  }

  lemma ResidentStep(n: nat, h: seq<Write>, t: nat)
    requires n > 0 && Even(h)
    ensures ResidentAfter(n, h, t) <==> t in CleanAll(RunWb(Fill(0, n), h))
    ensures h != [] ==> CleanAll(RunWb(Fill(0, n), h)) == Touch(CleanAll(RunWb(Fill(0, n), Front(h))), Last(h).tag)
  {
    hide CleanAll, Touch, TouchWb;
    CleanRun(Fill(0, n), h);
    CleanZeros(n);
    if h != [] {
      CleanTouch(RunWb(Fill(0, n), Front(h)), Last(h).write, Last(h).tag);
    }
  }

  lemma NoneDirty(n: nat, t: nat)
    requires n > 0
    ensures !DirtyIn(Fill(0, n), t)
  {
  }

  /** A resident line is dirty exactly when it was written since it was installed. */
  lemma {:induction false} DirtyIffWritten(n: nat, h: seq<Write>, t: nat)
    requires n > 0 && Even(h) && ResidentAfter(n, h, t)
    ensures DirtyIn(RunWb(Fill(0, n), h), t) <==> Written(n, h, t)
  {
    hide DirtyIn, TouchWb, CleanAll, ResidentAfter, Fill;
    ResidentStep(n, h, t);
    if h == [] {
      NoneDirty(n, t);
    } else {
      var s, u := RunWb(Fill(0, n), Front(h)), Last(h);
      ResidentStep(n, Front(h), t);
      if u.tag == t {
        DirtyWhenTouched(s, u.write, t);
        if ResidentAfter(n, Front(h), t) {
          DirtyIffWritten(n, Front(h), t);
        } else {
          NotDirty(s, t);
        }
      } else {
        DirtyWhenOther(s, u.write, u.tag, t);
        DirtyIffWritten(n, Front(h), t);
      }
    }
  }

  lemma NotDirty(s: seq<nat>, t: nat)
    requires t !in CleanAll(s)
    ensures !DirtyIn(s, t)
  {
  }

  // ----- conservation

  ghost function DirtyCount(s: seq<nat>): nat {
    if s == [] then 0 else DirtyCount(Front(s)) + if Dirty(Last(s)) then 1 else 0
  }

  lemma {:induction false} DirtyConcat(s: seq<nat>, t: seq<nat>)
    ensures DirtyCount(s + t) == DirtyCount(s) + DirtyCount(t)
  {
    if t == [] {
      assert s + t == s;
    } else {
      assert Front(s + t) == s + Front(t);
      DirtyConcat(s, Front(t));
    }
  }

  lemma DirtyOne(e: nat)
    ensures DirtyCount([e]) == if Dirty(e) then 1 else 0
  {
    assert Front([e]) == [];
  }

  lemma DirtyWithout(p: seq<nat>, e: nat, q: seq<nat>)
    ensures DirtyCount(p + q) + (if Dirty(e) then 1 else 0) == DirtyCount(p + ([e] + q))
  {
    hide DirtyCount, Dirty;
    DirtyConcat(p, [e] + q);
    DirtyConcat([e], q);
    DirtyConcat(p, q);
    DirtyOne(e);
  }

  lemma DirtyRemoved(s: seq<nat>, i: nat)
    requires i < |s|
    ensures DirtyCount(RemoveAt(s, i)) + (if Dirty(s[i]) then 1 else 0) == DirtyCount(s)
  {
    hide DirtyCount, Dirty;
    DirtyWithout(s[..i], s[i], s[i + 1..]);
    SplitAt(s, i);
  }

  /** The evictions of dirty lines that a run reports as MissDirty. */
  ghost function DirtyEvictions(s: seq<nat>, h: seq<Write>): nat
    requires s != []
  {
    if h == [] then 0
    else DirtyEvictions(s, Front(h)) + if OutcomeWb(RunWb(s, Front(h)), Last(h).tag) == WbMissDirty then 1 else 0
  }

  /** The writes that make a clean line dirty, or install a dirty one, by the history alone. */
  ghost function Dirtied(n: nat, h: seq<Write>): nat
    requires n > 0
  {
    if h == [] then 0
    else
      var t := Last(h).tag;
      var already := ResidentAfter(n, Front(h), t) && Written(n, Front(h), t);
      Dirtied(n, Front(h)) + if Last(h).write && !already then 1 else 0
  }

  lemma {:induction false} DirtyZeros(n: nat)
    ensures DirtyCount(Fill(0, n)) == 0
  {
    if n == 0 {
      assert Fill<nat>(0, 0) == [];
    } else {
      assert Front(Fill<nat>(0, n)) == Fill<nat>(0, n - 1);
      DirtyZeros(n - 1);
    }
  }

  /** Every line that became dirty is still resident and dirty, or was written back. */
  lemma {:induction false} DirtyConserved(n: nat, h: seq<Write>)
    requires n > 0 && Even(h)
    ensures DirtyEvictions(Fill(0, n), h) + DirtyCount(RunWb(Fill(0, n), h)) == Dirtied(n, h)
  {
    var z := Fill(0, n);
    if h == [] {
      DirtyZeros(n);
    } else {
      DirtyConserved(n, Front(h));
      var s, u := RunWb(z, Front(h)), Last(h);
      ResidentStep(n, Front(h), u.tag);
      if ResidentAfter(n, Front(h), u.tag) {
        DirtyIffWritten(n, Front(h), u.tag);
      }
      var v, e := TouchShape(s, u);
      DirtyReplaced(s, v, e);
    }
  }

  /** One reference puts e in front and drops way v: what that dirties and what it evicts. */
  lemma TouchShape(s: seq<nat>, u: Write) returns (v: nat, e: nat)
    requires s != [] && u.tag % 2 == 0
    ensures v < |s| && TouchWb(s, u.write, u.tag) == [e] + RemoveAt(s, v)
    ensures var i := IndexOf(CleanAll(s), u.tag);
            if i < |s| then v == i && OutcomeWb(s, u.tag) == WbHit && (Dirty(e) <==> u.write || Dirty(s[i]))
            else (OutcomeWb(s, u.tag) == WbMissDirty <==> Dirty(s[v])) && (Dirty(e) <==> u.write)
  {
    var i := IndexOf(CleanAll(s), u.tag);
    v, e := if i < |s| then i else |s| - 1, Or(if i < |s| then s[i] else u.tag, u.write);
  }

  lemma DirtyReplaced(s: seq<nat>, v: nat, e: nat)
    requires v < |s|
    ensures DirtyCount([e] + RemoveAt(s, v)) + (if Dirty(s[v]) then 1 else 0)
         == DirtyCount(s) + (if Dirty(e) then 1 else 0)
  {
    DirtyConcat([e], RemoveAt(s, v));
    DirtyOne(e);
    DirtyRemoved(s, v);
  }
}
