/** The two cache levels over a whole run (cg_main.c with cg_sim.c): each level-one cache holds the history of
    its own accesses, and the last level that of the accesses that missed in either of them, in order. */
module CacheLevels {
  import opened Options
  import opened Lru
  import opened SetCache
  import opened CacheModel
  import opened Hierarchy
  import opened EventModel
  import opened BlockMeaning

  predicate IsData(h: Happening) {
    h.ReadOf? || h.WriteOf?
  }

  predicate IsAccess(h: Happening, data: bool) {
    if data then IsData(h) else h.Fetch?
  }

  function AccessOf(h: Happening): Access
    requires h.Fetch? || IsData(h)
  {
    match h
    case Fetch(_, addr, len) => Access(addr, len)
    case ReadOf(_, addr, size) => Access(addr, size)
    case WriteOf(_, addr, size) => Access(addr, size)
  }

  /** The accesses of a level-one cache. */
  ghost function Own(hs: seq<Happening>, data: bool): seq<Access> {
    if hs == [] then []
    else Own(Front(hs), data) + if IsAccess(Last(hs), data) then [AccessOf(Last(hs))] else []
  }

  function LevelOne(cfg: Config, data: bool): Geometry {
    if data then cfg.d1 else cfg.i1
  }

  function TagsOf(s: Sim, data: bool): Tags {
    if data then s.d1 else s.i1
  }

  /** The last thing that happened is an access that misses in its level-one cache. */
  ghost predicate GoesOn(cfg: Config, s: Sim, hs: seq<Happening>, data: bool)
    requires Fitted(cfg, Some(s)) && hs != []
  {
    && IsAccess(Last(hs), data)
    && Ref(After(TagsOf(s, data), LevelOne(cfg, data).assoc, Steps(LevelOne(cfg, data), Own(Front(hs), data))),
           LevelOne(cfg, data).assoc, Places(LevelOne(cfg, data), AccessOf(Last(hs)))).0 == Miss
  }

  /** The accesses that reach the last level. */
  ghost function Beyond(cfg: Config, s: Sim, hs: seq<Happening>): seq<Access>
    requires Fitted(cfg, Some(s))
  {
    if hs == [] then []
    else Beyond(cfg, s, Front(hs))
         + if GoesOn(cfg, s, hs, false) || GoesOn(cfg, s, hs, true) then [AccessOf(Last(hs))] else []
  }

  /** No access spans more than two lines of the cache g. */
  ghost predicate AllPlaced(g: Geometry, xs: seq<Access>) {
    forall k :: 0 <= k < |xs| ==> Places(g, xs[k]).Some?
  }

  lemma PlacedAppend(g: Geometry, xs: seq<Access>, a: Access)
    ensures AllPlaced(g, xs + [a]) <==> AllPlaced(g, xs) && Places(g, a).Some?
  {
    assert (xs + [a])[|xs|] == a;
    assert forall k :: 0 <= k < |xs| ==> (xs + [a])[k] == xs[k];
  }

  lemma AfterAppend(c: Tags, g: Geometry, xs: seq<Access>, a: Access)
    requires Matches(g, c)
    ensures After(c, g.assoc, Steps(g, xs + [a])) == Ref(After(c, g.assoc, Steps(g, xs)), g.assoc, Places(g, a)).1
  {
    assert Steps(g, xs + [a]) == Steps(g, xs) + [Places(g, a)];
    assert Front(Steps(g, xs + [a])) == Steps(g, xs);
  }

  /** The caches of s' are those of s after these accesses. */
  ghost predicate Holds(cfg: Config, s: Sim, s': Sim, fetches: seq<Access>, data: seq<Access>, beyond: seq<Access>)
    requires Fitted(cfg, Some(s))
  {
    && s'.i1 == After(s.i1, cfg.i1.assoc, Steps(cfg.i1, fetches))
    && s'.d1 == After(s.d1, cfg.d1.assoc, Steps(cfg.d1, data))
    && s'.ll == After(s.ll, cfg.ll.assoc, Steps(cfg.ll, beyond))
  }

  ghost predicate Possible(cfg: Config, fetches: seq<Access>, data: seq<Access>, beyond: seq<Access>) {
    AllPlaced(cfg.i1, fetches) && AllPlaced(cfg.d1, data) && AllPlaced(cfg.ll, beyond)
  }

  /** Over any run the simulation goes on exactly as long as no access spans more than two lines of a cache it
      reaches, and leaves each cache with the history of the accesses that reached it. */
  lemma {:induction false} LevelsHistory(cfg: Config, s: Sim, hs: seq<Happening>)
    requires Fitted(cfg, Some(s)) && cfg.cacheSim
    ensures var st := SimulatedAll(cfg, Some(s), hs);
            && (st.Some? <==> Possible(cfg, Own(hs, false), Own(hs, true), Beyond(cfg, s, hs)))
            && (st.Some? ==> Holds(cfg, s, st.value, Own(hs, false), Own(hs, true), Beyond(cfg, s, hs)))
    decreases |hs|
  {
    hide Simulated, After, Possible, Holds, GoesOn, Beyond, Own;
    if hs == [] {
      NothingYet(cfg, s);
    } else {
      LevelsHistory(cfg, s, Front(hs));
      OneMore(cfg, s, hs, SimulatedAll(cfg, Some(s), Front(hs)));
    }
  }

  lemma NothingYet(cfg: Config, s: Sim)
    requires Fitted(cfg, Some(s))
    ensures Possible(cfg, Own([], false), Own([], true), Beyond(cfg, s, []))
    ensures Holds(cfg, s, s, Own([], false), Own([], true), Beyond(cfg, s, []))
  {
  }

  /** An access of one level-one cache. */
  lemma AccessStep(cfg: Config, s: Sim, hs: seq<Happening>, st: Sim, data: bool)
    requires Fitted(cfg, Some(s)) && Fitted(cfg, Some(st)) && cfg.cacheSim && hs != [] && IsAccess(Last(hs), data)
    requires Holds(cfg, s, st, Own(Front(hs), false), Own(Front(hs), true), Beyond(cfg, s, Front(hs)))
    ensures var r, a, g := Simulated(cfg, Some(st), Last(hs)), AccessOf(Last(hs)), LevelOne(cfg, data);
            && (r.Some? <==> Places(g, a).Some? && (GoesOn(cfg, s, hs, data) ==> Places(cfg.ll, a).Some?))
            && (r.Some? ==> && TagsOf(r.value, data) == Ref(TagsOf(st, data), g.assoc, Places(g, a)).1
                            && TagsOf(r.value, !data) == TagsOf(st, !data)
                            && r.value.ll == if GoesOn(cfg, s, hs, data) then Ref(st.ll, cfg.ll.assoc, Places(cfg.ll, a)).1 else st.ll)
  {
    hide After, Beyond, Own, Places, ReferAll, AllHit;
  }

  /** What the last thing that happened adds to the accesses of each cache. */
  lemma LastAccess(cfg: Config, s: Sim, hs: seq<Happening>, data: bool)
    requires Fitted(cfg, Some(s)) && hs != [] && IsAccess(Last(hs), data)
    ensures Own(hs, data) == Own(Front(hs), data) + [AccessOf(Last(hs))] && Own(hs, !data) == Own(Front(hs), !data)
    ensures Beyond(cfg, s, hs) == if GoesOn(cfg, s, hs, data) then Beyond(cfg, s, Front(hs)) + [AccessOf(Last(hs))] else Beyond(cfg, s, Front(hs))
  {
  }

  lemma PossibleMore(cfg: Config, s: Sim, hs: seq<Happening>, data: bool)
    requires Fitted(cfg, Some(s)) && hs != [] && IsAccess(Last(hs), data)
    ensures var a := AccessOf(Last(hs));
            var before := Possible(cfg, Own(Front(hs), false), Own(Front(hs), true), Beyond(cfg, s, Front(hs)));
            var now := Places(LevelOne(cfg, data), a).Some? && (GoesOn(cfg, s, hs, data) ==> Places(cfg.ll, a).Some?);
            Possible(cfg, Own(hs, false), Own(hs, true), Beyond(cfg, s, hs)) <==> before && now
  {
    hide Own, Beyond, AllPlaced, GoesOn, Places;
    LastAccess(cfg, s, hs, data);
    PlacedAppend(LevelOne(cfg, data), Own(Front(hs), data), AccessOf(Last(hs)));
    PlacedAppend(cfg.ll, Beyond(cfg, s, Front(hs)), AccessOf(Last(hs)));
  }

  lemma HoldsMore(cfg: Config, s: Sim, st: Sim, st': Sim, hs: seq<Happening>, data: bool)
    requires Fitted(cfg, Some(s)) && Fitted(cfg, Some(st)) && hs != [] && IsAccess(Last(hs), data)
    requires Holds(cfg, s, st, Own(Front(hs), false), Own(Front(hs), true), Beyond(cfg, s, Front(hs)))
    requires var a, g := AccessOf(Last(hs)), LevelOne(cfg, data);
             && TagsOf(st', data) == Ref(TagsOf(st, data), g.assoc, Places(g, a)).1
             && TagsOf(st', !data) == TagsOf(st, !data)
             && st'.ll == if GoesOn(cfg, s, hs, data) then Ref(st.ll, cfg.ll.assoc, Places(cfg.ll, a)).1 else st.ll
    ensures Holds(cfg, s, st', Own(hs, false), Own(hs, true), Beyond(cfg, s, hs))
  {
    hide Own, Beyond, GoesOn, Places, After, Ref;
    LastAccess(cfg, s, hs, data);
    AfterAppend(TagsOf(s, data), LevelOne(cfg, data), Own(Front(hs), data), AccessOf(Last(hs)));
    AfterAppend(s.ll, cfg.ll, Beyond(cfg, s, Front(hs)), AccessOf(Last(hs)));
  }

  /** Simulated so far, and what the caches hold. */
  ghost predicate Follows(cfg: Config, s: Sim, hs: seq<Happening>, st: State)
    requires Fitted(cfg, Some(s))
  {
    && (st.Some? <==> Possible(cfg, Own(hs, false), Own(hs, true), Beyond(cfg, s, hs)))
    && (st.Some? ==> Holds(cfg, s, st.value, Own(hs, false), Own(hs, true), Beyond(cfg, s, hs)))
  }

  lemma OneMore(cfg: Config, s: Sim, hs: seq<Happening>, st: State)
    requires Fitted(cfg, Some(s)) && Fitted(cfg, st) && cfg.cacheSim && hs != [] && Follows(cfg, s, Front(hs), st)
    ensures Follows(cfg, s, hs, Simulated(cfg, st, Last(hs)))
  {
    hide Simulated, Holds, Possible, Own, Beyond, GoesOn, Places, Ref;
    var h := Last(hs);
    if !h.Fetch? && !IsData(h) {
      NoAccess(cfg, s, hs);
      BranchKeepsCaches(cfg, st, h);
      SameCaches(cfg, s, hs, st, Simulated(cfg, st, h));
    } else {
      PossibleMore(cfg, s, hs, IsData(h));
      if st.None? {
        StoppedStays(cfg, h);
      } else {
        AccessStep(cfg, s, hs, st.value, IsData(h));
        var st' := Simulated(cfg, st, h);
        if st'.Some? {
          HoldsMore(cfg, s, st.value, st'.value, hs, IsData(h));
        }
      }
    }
  }

  lemma NoAccess(cfg: Config, s: Sim, hs: seq<Happening>)
    requires Fitted(cfg, Some(s)) && hs != [] && !Last(hs).Fetch? && !IsData(Last(hs))
    ensures Own(hs, false) == Own(Front(hs), false) && Own(hs, true) == Own(Front(hs), true)
    ensures Beyond(cfg, s, hs) == Beyond(cfg, s, Front(hs))
  {
  }

  lemma SameCaches(cfg: Config, s: Sim, hs: seq<Happening>, st: State, st': State)
    requires Fitted(cfg, Some(s)) && hs != [] && (st.Some? <==> st'.Some?)
    requires st.Some? ==> st'.value.i1 == st.value.i1 && st'.value.d1 == st.value.d1 && st'.value.ll == st.value.ll
    requires st.Some? ==> Holds(cfg, s, st.value, Own(hs, false), Own(hs, true), Beyond(cfg, s, hs))
    ensures st'.Some? ==> Holds(cfg, s, st'.value, Own(hs, false), Own(hs, true), Beyond(cfg, s, hs))
  {
    hide After, Own, Beyond;
  }

  lemma StoppedStays(cfg: Config, h: Happening)
    ensures Simulated(cfg, None, h) == None
  {
  }

  lemma BranchKeepsCaches(cfg: Config, st: State, h: Happening)
    requires Fitted(cfg, st) && (h.Branch? || h.Goto?)
    ensures var r := Simulated(cfg, st, h);
            && (r.Some? <==> st.Some?)
            && (r.Some? ==> r.value.i1 == st.value.i1 && r.value.d1 == st.value.d1 && r.value.ll == st.value.ll)
  {
  }

  // ----- branches

  /** A conditional branch asks the predictor about its own address and direction, counts one more branch of its
      line and, when the predictor says so, one more misprediction, and changes nothing else. */
  lemma BranchCounts(cfg: Config, s: Sim, line: nat, at: nat, taken: bool)
    requires Fitted(cfg, Some(s))
    ensures var r := Simulated(cfg, Some(s), Branch(line, at, taken));
            var asked := cfg.cond(s.tables, at, if taken then 1 else 0);
            && r.Some? && r.value.tables == asked.0
            && CC(r.value, line).Bc.b == CC(s, line).Bc.b + 1
            && CC(r.value, line).Bc.mp == CC(s, line).Bc.mp + (if asked.1 % 2 == 1 then 1 else 0)
            && CC(r.value, line) == CC(s, line).(Bc := CC(r.value, line).Bc)
            && (forall q :: q != line ==> CC(r.value, q) == CC(s, q))
            && r.value.(tables := s.tables, cc := s.cc) == s
  {
  }

  /** A jump to an unknown target asks the other predictor, about its own address and the target. */
  lemma GotoCounts(cfg: Config, s: Sim, line: nat, at: nat, target: nat)
    requires Fitted(cfg, Some(s))
    ensures var r := Simulated(cfg, Some(s), Goto(line, at, target));
            var asked := cfg.ind(s.tables, at, target);
            && r.Some? && r.value.tables == asked.0
            && CC(r.value, line).Bi.b == CC(s, line).Bi.b + 1
            && CC(r.value, line).Bi.mp == CC(s, line).Bi.mp + (if asked.1 % 2 == 1 then 1 else 0)
            && CC(r.value, line) == CC(s, line).(Bi := CC(r.value, line).Bi)
            && (forall q :: q != line ==> CC(r.value, q) == CC(s, q))
            && r.value.(tables := s.tables, cc := s.cc) == s
  {
  }
}
