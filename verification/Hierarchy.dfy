/** cachegrind's two-level hierarchy on values: a first-level cache backed by the last-level one.
    A reference that spans more than two lines stops the program (tool_panic). */
module Hierarchy {
  import opened Options
  import opened SetCache
  import opened CacheModel

  /** The two caches after a reference, and what it adds to the miss counters. */
  datatype Effect = Done(l1: Tags, ll: Tags, m1: nat, mL: nat) | Stopped

  ghost predicate Matches(g: Geometry, c: Tags) {
    Fits(c, g.assoc) && |c| == g.Sets()
  }

  /** cachesim_I1_doref_Gen and cachesim_D1_doref: the last level is consulted on a miss only. */
  ghost function DoRef(g: Geometry, G: Geometry, l1: Tags, ll: Tags, a: Access): (e: Effect)
    requires Matches(g, l1) && Matches(G, ll)
    ensures e.Done? ==> Matches(g, e.l1) && Matches(G, e.ll) && e.mL <= e.m1 <= 1
  {
    var (o, l1') := Ref(l1, g.assoc, Places(g, a));
    match o
    case Panic => Stopped
    case Hit => Done(l1', ll, 0, 0)
    case Miss =>
      var (O, ll') := Ref(ll, G.assoc, Places(G, a));
      match O
      case Panic => Stopped
      case Hit => Done(l1', ll', 1, 0)
      case Miss => Done(l1', ll', 1, 1)
  }

  /** cachesim_I1_doref_NoX: one block, the same in both caches. */
  ghost function DoRefNoX(g: Geometry, G: Geometry, l1: Tags, ll: Tags, a: Access): (e: Effect)
    requires Matches(g, l1) && Matches(G, ll)
    ensures e.Done? && Matches(g, e.l1) && Matches(G, e.ll)
  {
    var p, q := BlockPlace(g, Block(g, a.addr)), BlockPlace(G, Block(g, a.addr));
    if Resident(l1, p) then Done(Refer(l1, g.assoc, p), ll, 0, 0)
    else Done(Refer(l1, g.assoc, p), Refer(ll, G.assoc, q), 1, if Resident(ll, q) then 0 else 1)
  }

  /** cachesim_is_IrNoX, decided when the block is instrumented. */
  predicate IsIrNoX(g: Geometry, G: Geometry, a: Access) {
    g.lineBits == G.lineBits && Block(g, a.addr) == Block(g, LastByte(a))
  }

  /** Wherever the test holds, the special case does what the general one does. */
  lemma NoXIsGen(g: Geometry, G: Geometry, l1: Tags, ll: Tags, a: Access)
    requires Matches(g, l1) && Matches(G, ll) && IsIrNoX(g, G, a)
    ensures DoRefNoX(g, G, l1, ll, a) == DoRef(g, G, l1, ll, a)
  {
    var p, q := BlockPlace(g, Block(g, a.addr)), BlockPlace(G, Block(g, a.addr));
    assert Places(g, a) == Some([p]) && Places(G, a) == Some([q]);
    ReferOne(l1, g.assoc, p);
    ReferOne(ll, G.assoc, q);
  }

  /** An immediate repeat hits in the first level, changes neither cache and never reaches the last
      level: a write that follows a read of the same bytes costs nothing but its own count. */
  lemma RepeatIsFree(g: Geometry, G: Geometry, l1: Tags, ll: Tags, a: Access)
    requires g.Usable() && Matches(g, l1) && Matches(G, ll) && DoRef(g, G, l1, ll, a).Done?
    ensures var e := DoRef(g, G, l1, ll, a); DoRef(g, G, e.l1, e.ll, a) == Done(e.l1, e.ll, 0, 0)
  {
    RepeatHits(g, l1, a);
  }
}
