/** A cache of several LRU sets on values: references to places, what they leave behind, and how
    caches of different associativity or different tags compare.  How an address becomes places is
    left to the simulators. */
module SetCache {
  import opened Options
  import opened Lru

  /** Where a reference goes: the set it maps to and the tag it is known by there. */
  datatype Place = Place(setNo: nat, tag: nat)

  type Tags = seq<seq<nat>>

  datatype Outcome = Hit | Miss | Panic

  /** The places one access touches; None when it spans more than the simulators handle. */
  type Step = Option<seq<Place>>

  ghost predicate Fits(c: Tags, assoc: nat) {
    assoc > 0 && forall s :: 0 <= s < |c| ==> |c[s]| == assoc
  }

  ghost function Initial(sets: nat, assoc: nat): (c: Tags)
    requires assoc > 0
    ensures Fits(c, assoc) && |c| == sets
  {
    seq(sets, _ => Fill(0, assoc))
  }

  ghost predicate Within(ps: seq<Place>, sets: nat) {
    forall k :: 0 <= k < |ps| ==> ps[k].setNo < sets
  }

  ghost predicate Resident(c: Tags, p: Place)
    requires p.setNo < |c|
  {
    p.tag in c[p.setNo]
  }

  ghost function Refer(c: Tags, assoc: nat, p: Place): (c': Tags)
    requires Fits(c, assoc) && p.setNo < |c|
    ensures Fits(c', assoc) && |c'| == |c|
  {
    c[p.setNo := Touch(c[p.setNo], p.tag)]
  }

  ghost function ReferAll(c: Tags, assoc: nat, ps: seq<Place>): (c': Tags)
    requires Fits(c, assoc) && Within(ps, |c|)
    ensures Fits(c', assoc) && |c'| == |c|
  {
    if ps == [] then c else Refer(ReferAll(c, assoc, Front(ps)), assoc, Last(ps))
  }

  /** Every reference of ps finds its tag resident when its turn comes. */
  ghost predicate AllHit(c: Tags, assoc: nat, ps: seq<Place>)
    requires Fits(c, assoc) && Within(ps, |c|)
  {
    ps == [] || (AllHit(c, assoc, Front(ps)) && Resident(ReferAll(c, assoc, Front(ps)), Last(ps)))
  }

  lemma {:induction false} ReferAllConcat(c: Tags, assoc: nat, ps: seq<Place>, qs: seq<Place>)
    requires Fits(c, assoc) && Within(ps, |c|) && Within(qs, |c|)
    ensures Within(ps + qs, |c|)
    ensures ReferAll(c, assoc, ps + qs) == ReferAll(ReferAll(c, assoc, ps), assoc, qs)
    ensures AllHit(c, assoc, ps + qs) <==> AllHit(c, assoc, ps) && AllHit(ReferAll(c, assoc, ps), assoc, qs)
  {
    hide Refer, Resident;
    if qs == [] {
      assert ps + qs == ps;
    } else {
      assert Front(ps + qs) == ps + Front(qs);
      ReferAllConcat(c, assoc, ps, Front(qs));
    }
  }

  lemma ReferOne(c: Tags, assoc: nat, p: Place)
    requires Fits(c, assoc) && p.setNo < |c|
    ensures ReferAll(c, assoc, [p]) == Refer(c, assoc, p)
    ensures AllHit(c, assoc, [p]) <==> Resident(c, p)
  {
    assert Front([p]) == [];
  }

  lemma ReferTwo(c: Tags, assoc: nat, p: Place, q: Place)
    requires Fits(c, assoc) && p.setNo < |c| && q.setNo < |c|
    ensures ReferAll(c, assoc, [p, q]) == Refer(Refer(c, assoc, p), assoc, q)
    ensures AllHit(c, assoc, [p, q]) <==> Resident(c, p) && Resident(Refer(c, assoc, p), q)
  {
    ReferOne(c, assoc, p);
    assert Front([p, q]) == [p];
  }

  // ----- what each set holds, from the history of references alone

  /** The tags of ps that go to set s. */
  ghost function InSet(ps: seq<Place>, s: nat): seq<nat> {
    if ps == [] then []
    else InSet(Front(ps), s) + if Last(ps).setNo == s then [Last(ps).tag] else []
  }

  /** Each set runs on its own tags only. */
  lemma {:induction false} SetsAreIndependent(c: Tags, assoc: nat, ps: seq<Place>, s: nat)
    requires Fits(c, assoc) && Within(ps, |c|) && s < |c|
    ensures ReferAll(c, assoc, ps)[s] == Run(c[s], InSet(ps, s))
  {
    if ps != [] {
      SetsAreIndependent(c, assoc, Front(ps), s);
      var i := InSet(Front(ps), s);
      assert Front(i + [Last(ps).tag]) == i;
      assert i + [] == i;
    }
  }

  /** Exact LRU history: set s holds the assoc most recently used of its tags, padded with the
      initial zeros. */
  lemma SetHistory(sets: nat, assoc: nat, ps: seq<Place>, s: nat)
    requires assoc > 0 && Within(ps, sets) && s < sets
    ensures ReferAll(Initial(sets, assoc), assoc, ps)[s] == Window(assoc, InSet(ps, s), 0)
  {
    SetsAreIndependent(Initial(sets, assoc), assoc, ps, s);
    ExactHistory(assoc, InSet(ps, s), 0);
  }

  // ----- accesses

  ghost predicate Fitting(st: Step, sets: nat) {
    st.Some? ==> Within(st.value, sets)
  }

  ghost predicate AllFitting(h: seq<Step>, sets: nat) {
    forall k :: 0 <= k < |h| ==> Fitting(h[k], sets)
  }

  /** One access references all its places, and is one miss when any of them misses. */
  ghost function Ref(c: Tags, assoc: nat, st: Step): (r: (Outcome, Tags))
    requires Fits(c, assoc) && Fitting(st, |c|)
    ensures Fits(r.1, assoc) && |r.1| == |c|
  {
    match st
    case None => (Panic, c)
    case Some(ps) => (if AllHit(c, assoc, ps) then Hit else Miss, ReferAll(c, assoc, ps))
  }

  ghost function After(c: Tags, assoc: nat, h: seq<Step>): (c': Tags)
    requires Fits(c, assoc) && AllFitting(h, |c|)
    ensures Fits(c', assoc) && |c'| == |c|
  {
    if h == [] then c else Ref(After(c, assoc, Front(h)), assoc, Last(h)).1
  }

  /** The outcome of the last access of h. */
  ghost function LastOutcome(c: Tags, assoc: nat, h: seq<Step>): Outcome
    requires Fits(c, assoc) && AllFitting(h, |c|) && h != []
  {
    Ref(After(c, assoc, Front(h)), assoc, Last(h)).0
  }

  ghost function Misses(c: Tags, assoc: nat, h: seq<Step>): nat
    requires Fits(c, assoc) && AllFitting(h, |c|)
  {
    if h == [] then 0
    else Misses(c, assoc, Front(h)) + if LastOutcome(c, assoc, h) == Miss then 1 else 0
  }

  /** Every place referenced by the accesses of h, in order. */
  ghost function Trace(h: seq<Step>): seq<Place> {
    if h == [] then []
    else Trace(Front(h)) + match Last(h) case None => [] case Some(ps) => ps
  }

  lemma {:induction false} AfterIsTrace(c: Tags, assoc: nat, h: seq<Step>)
    requires Fits(c, assoc) && AllFitting(h, |c|)
    ensures Within(Trace(h), |c|) && After(c, assoc, h) == ReferAll(c, assoc, Trace(h))
  {
    if h != [] {
      AfterIsTrace(c, assoc, Front(h));
      var ps := match Last(h) case None => [] case Some(ps) => ps;
      ReferAllConcat(c, assoc, Trace(Front(h)), ps);
    }
  }

  /** p is among the assoc most recently used tags of its set after the references ps. */
  ghost predicate Recent(assoc: nat, ps: seq<Place>, p: Place) {
    p.tag in Window(assoc, InSet(ps, p.setNo), 0)
  }

  /** Every place of ps is recent when its turn comes. */
  ghost predicate AllRecent(assoc: nat, past: seq<Place>, ps: seq<Place>) {
    ps == [] || (AllRecent(assoc, past, Front(ps)) && Recent(assoc, past + Front(ps), Last(ps)))
  }

  lemma {:induction false} AllHitIffRecent(sets: nat, assoc: nat, past: seq<Place>, ps: seq<Place>)
    requires assoc > 0 && Within(past, sets) && Within(ps, sets)
    ensures AllHit(ReferAll(Initial(sets, assoc), assoc, past), assoc, ps) <==> AllRecent(assoc, past, ps)
  {
    if ps != [] {
      AllHitIffRecent(sets, assoc, past, Front(ps));
      ReferAllConcat(Initial(sets, assoc), assoc, past, Front(ps));
      SetHistory(sets, assoc, past + Front(ps), Last(ps).setNo);
    }
  }

  // ----- inclusion

  /** The sets of c are prefixes of those of C. */
  ghost predicate Included(c: Tags, C: Tags) {
    |c| == |C| && forall s :: 0 <= s < |c| ==> c[s] <= C[s]
  }

  lemma {:induction false} ReferAllKeepsIncluded(c: Tags, m: nat, C: Tags, n: nat, ps: seq<Place>)
    requires Fits(c, m) && Fits(C, n) && Included(c, C) && Within(ps, |c|)
    ensures Included(ReferAll(c, m, ps), ReferAll(C, n, ps))
    ensures AllHit(c, m, ps) ==> AllHit(C, n, ps)
  {
    if ps != [] {
      var p := Last(ps);
      ReferAllKeepsIncluded(c, m, C, n, Front(ps));
      TouchKeepsPrefix(ReferAll(c, m, Front(ps))[p.setNo], ReferAll(C, n, Front(ps))[p.setNo], p.tag);
    }
  }

  /** On the same accesses the less associative cache stays inside the more associative one, every
      access it hits hits there too, and it misses at least as often. */
  lemma {:induction false} Inclusion(c: Tags, m: nat, C: Tags, n: nat, h: seq<Step>)
    requires Fits(c, m) && Fits(C, n) && Included(c, C) && AllFitting(h, |c|)
    ensures Included(After(c, m, h), After(C, n, h))
    ensures h != [] && LastOutcome(c, m, h) == Hit ==> LastOutcome(C, n, h) == Hit
    ensures Misses(C, n, h) <= Misses(c, m, h)
  {
    if h != [] {
      Inclusion(c, m, C, n, Front(h));
      if Last(h).Some? {
        ReferAllKeepsIncluded(After(c, m, Front(h)), m, After(C, n, Front(h)), n, Last(h).value);
      }
    }
  }

  lemma InitialIncluded(sets: nat, m: nat, n: nat)
    requires 0 < m <= n
    ensures Included(Initial(sets, m), Initial(sets, n))
  {
    assert Fill(0, m) <= Fill(0, n);
  }

  // ----- tags under another name

  /** f gives different names to different tags of the same set, as far as u goes. */
  ghost predicate Tells(f: nat -> nat, u: iset<Place>) {
    forall p, q :: p in u && q in u && p.setNo == q.setNo && f(p.tag) == f(q.tag) ==> p.tag == q.tag
  }

  ghost predicate Holds(u: iset<Place>, c: Tags) {
    forall s, k :: 0 <= s < |c| && 0 <= k < |c[s]| ==> Place(s, c[s][k]) in u
  }

  ghost function Renamed(f: nat -> nat, c: Tags): (c': Tags)
    ensures |c'| == |c| && forall s :: 0 <= s < |c| ==> c'[s] == Map(f, c[s])
  {
    seq(|c|, s requires 0 <= s < |c| => Map(f, c[s]))
  }

  ghost function RenamedPlaces(f: nat -> nat, ps: seq<Place>): (qs: seq<Place>)
    ensures |qs| == |ps| && forall k :: 0 <= k < |ps| ==> qs[k] == Place(ps[k].setNo, f(ps[k].tag))
  {
    seq(|ps|, k requires 0 <= k < |ps| => Place(ps[k].setNo, f(ps[k].tag)))
  }

  lemma ReferRenamed(f: nat -> nat, u: iset<Place>, c: Tags, assoc: nat, p: Place)
    requires Fits(c, assoc) && p.setNo < |c| && Tells(f, u) && Holds(u, c) && p in u
    ensures var q := Place(p.setNo, f(p.tag));
            Refer(Renamed(f, c), assoc, q) == Renamed(f, Refer(c, assoc, p))
    ensures Resident(Renamed(f, c), Place(p.setNo, f(p.tag))) <==> Resident(c, p)
    ensures Holds(u, Refer(c, assoc, p))
  {
    var s := p.setNo;
    forall y | y in c[s] && f(y) == f(p.tag)
      ensures y == p.tag
    {
      assert Place(s, y) in u;
    }
    TouchRelabel(f, c[s], p.tag);
  }

  /** Renaming tags commutes with references as long as no two tags of a set are confused. */
  lemma {:induction false} ReferAllRenamed(f: nat -> nat, u: iset<Place>, c: Tags, assoc: nat, ps: seq<Place>)
    requires Fits(c, assoc) && Within(ps, |c|) && Tells(f, u) && Holds(u, c)
    requires forall k :: 0 <= k < |ps| ==> ps[k] in u
    ensures var qs := RenamedPlaces(f, ps);
            && ReferAll(Renamed(f, c), assoc, qs) == Renamed(f, ReferAll(c, assoc, ps))
            && (AllHit(Renamed(f, c), assoc, qs) <==> AllHit(c, assoc, ps))
    ensures Holds(u, ReferAll(c, assoc, ps))
  {
    if ps != [] {
      ReferAllRenamed(f, u, c, assoc, Front(ps));
      assert Front(RenamedPlaces(f, ps)) == RenamedPlaces(f, Front(ps));
      ReferRenamed(f, u, ReferAll(c, assoc, Front(ps)), assoc, Last(ps));
    }
  }

  ghost function RenamedStep(f: nat -> nat, st: Step): Step {
    match st case None => None case Some(ps) => Some(RenamedPlaces(f, ps))
  }

  ghost predicate StepIn(u: iset<Place>, st: Step) {
    st.Some? ==> forall k :: 0 <= k < |st.value| ==> st.value[k] in u
  }

  /** So whole streams of accesses have the same outcomes under either name, and leave the same cache
      up to the renaming. */
  lemma {:induction false} AfterRenamed(f: nat -> nat, u: iset<Place>, c: Tags, assoc: nat, h: seq<Step>, h': seq<Step>)
    requires Fits(c, assoc) && AllFitting(h, |c|) && AllFitting(h', |c|) && Tells(f, u) && Holds(u, c)
    requires |h| == |h'| && forall k :: 0 <= k < |h| ==> StepIn(u, h[k]) && h'[k] == RenamedStep(f, h[k])
    ensures After(Renamed(f, c), assoc, h') == Renamed(f, After(c, assoc, h))
    ensures Holds(u, After(c, assoc, h))
    ensures h != [] ==> LastOutcome(Renamed(f, c), assoc, h') == LastOutcome(c, assoc, h)
  {
    if h != [] {
      AfterRenamed(f, u, c, assoc, Front(h), Front(h'));
      if Last(h).Some? {
        ReferAllRenamed(f, u, After(c, assoc, Front(h)), assoc, Last(h).value);
        assert Last(h').value == RenamedPlaces(f, Last(h).value);
      }
    }
  }

  // ----- an immediate repeat

  lemma TouchAgain<T>(s: seq<T>, x: T)
    requires s != [] && s[0] == x
    ensures Touch(s, x) == s
  {
    IndexOfIs(s, x, 0);
  }

  lemma TouchSwap<T>(s: seq<T>, x: T, y: T)
    requires |s| > 1 && s[0] == y && s[1] == x && x != y
    ensures Touch(s, x) == [x, y] + s[2..]
  {
    IndexOfIs(s, x, 1);
  }

  lemma RepeatOne(c: Tags, assoc: nat, p: Place)
    requires Fits(c, assoc) && p.setNo < |c|
    ensures var c' := Refer(c, assoc, p); Resident(c', p) && Refer(c', assoc, p) == c'
  {
    var c' := Refer(c, assoc, p);
    assert c'[p.setNo][0] == p.tag;
    TouchAgain(c'[p.setNo], p.tag);
  }

  lemma RepeatInOneSet(c: Tags, assoc: nat, p: Place, q: Place)
    requires Fits(c, assoc) && p.setNo == q.setNo < |c| && assoc > 1 && p.tag != q.tag
    requires c[p.setNo][0] == q.tag && c[p.setNo][1] == p.tag
    ensures var c1 := Refer(c, assoc, p);
            Resident(c, p) && Resident(c1, q) && Refer(c1, assoc, q) == c
  {
    var w := c[p.setNo];
    var w1 := Touch(w, p.tag);
    TouchSwap(w, p.tag, q.tag);
    TouchSwap(w1, q.tag, p.tag);
    assert [q.tag, p.tag] + w1[2..] == w;
  }

  lemma RepeatInTwoSets(c: Tags, assoc: nat, p: Place, q: Place)
    requires Fits(c, assoc) && p.setNo < |c| && q.setNo < |c| && p.setNo != q.setNo
    requires c[p.setNo][0] == p.tag && c[q.setNo][0] == q.tag
    ensures Resident(c, p) && Refer(c, assoc, p) == c
    ensures Resident(c, q) && Refer(c, assoc, q) == c
  {
    TouchAgain(c[p.setNo], p.tag);
    TouchAgain(c[q.setNo], q.tag);
  }

  /** Repeating a straddling access at once hits twice and leaves the cache as it is, provided that
      both places can be resident together. */
  lemma RepeatTwo(c: Tags, assoc: nat, p: Place, q: Place)
    requires Fits(c, assoc) && p.setNo < |c| && q.setNo < |c|
    requires p.setNo != q.setNo || (assoc > 1 && p.tag != q.tag)
    ensures var c' := ReferAll(c, assoc, [p, q]);
            AllHit(c', assoc, [p, q]) && ReferAll(c', assoc, [p, q]) == c'
  {
    var c1 := Refer(c, assoc, p);
    var c' := Refer(c1, assoc, q);
    ReferTwo(c, assoc, p, q);
    ReferTwo(c', assoc, p, q);
    assert c1[p.setNo][0] == p.tag && c'[q.setNo][0] == q.tag;
    if p.setNo != q.setNo {
      RepeatInTwoSets(c', assoc, p, q);
    } else {
      assert c'[p.setNo][1] == p.tag by { FirstStaysNext(c1[p.setNo], q.tag); }
      RepeatInOneSet(c', assoc, p, q);
    }
  }

  lemma FirstStaysNext<T>(s: seq<T>, y: T)
    requires |s| > 1 && s[0] != y
    ensures Touch(s, y)[1] == s[0]
  {
  }
}
