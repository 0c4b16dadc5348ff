/** Least-recently-used replacement in one cache set, on values.
    A set is a sequence of tags, most recently used first.  This is the reference that the
    simulators in CacheSim, WriteBackSim and CacheUseSim are proved against. */
module Lru {

  lemma {:induction false} FirstExists<T>(s: seq<T>, x: T)
    requires x in s
    ensures exists i :: 0 <= i < |s| && s[i] == x && x !in s[..i]
  {
    if s[0] == x {
      assert x !in s[..0];
    } else {
      FirstExists(s[1..], x);
      var i :| 0 <= i < |s[1..]| && s[1..][i] == x && x !in s[1..][..i];
      assert s[..i + 1] == [s[0]] + s[1..][..i];
      assert s[i + 1] == x && x !in s[..i + 1];
    }
  }

  /** The position of the first x in s, or |s| when there is none. */
  ghost function IndexOf<T>(s: seq<T>, x: T): (i: nat)
    ensures i <= |s|
    ensures i < |s| ==> s[i] == x
    ensures forall k :: 0 <= k < i ==> s[k] != x
    ensures x in s ==> i < |s|
  {
    if x in s then
      FirstExists(s, x);
      var i :| 0 <= i < |s| && s[i] == x && x !in s[..i];
      assert forall k :: 0 <= k < i ==> s[k] == s[..i][k];
      i
    else |s|
  }

  ghost function RemoveAt<T>(s: seq<T>, i: nat): (r: seq<T>)
    requires i < |s|
    ensures |r| == |s| - 1
    ensures forall k :: 0 <= k < i ==> r[k] == s[k]
    ensures forall k :: i <= k < |r| ==> r[k] == s[k + 1]
  {
    s[..i] + s[i + 1..]
  }

  lemma SplitAt<T>(s: seq<T>, i: nat)
    requires i < |s|
    ensures s == s[..i] + ([s[i]] + s[i + 1..])
  {
    assert s[i..] == [s[i]] + s[i + 1..];
    assert s == s[..i] + s[i..];
  }

  /** The position a reference to x vacates: that of x on a hit, the last one on a miss. */
  ghost function Victim<T>(s: seq<T>, x: T): (i: nat)
    requires s != []
    ensures i < |s|
  {
    var i := IndexOf(s, x);
    if i < |s| then i else |s| - 1
  }

  /** One reference to x. */
  ghost function Touch<T>(s: seq<T>, x: T): (r: seq<T>)
    requires s != []
    ensures |r| == |s|
  {
    [x] + RemoveAt(s, Victim(s, x))
  }

  /** References to every element of h, in order. */
  ghost function Run<T>(s: seq<T>, h: seq<T>): (r: seq<T>)
    requires s != []
    ensures |r| == |s|
  {
    if h == [] then s else Touch(Run(s, Front(h)), Last(h))
  }

  ghost function Front<T>(h: seq<T>): seq<T>
    requires h != []
  {
    h[..|h| - 1]
  }

  ghost function Last<T>(h: seq<T>): T
    requires h != []
  {
    h[|h| - 1]
  }

  /** Where a resident tag y moves when x is referenced. */
  lemma IndexAfterTouch<T>(s: seq<T>, x: T, y: T)
    requires s != [] && x != y && y in Touch(s, x)
    ensures var k, v := IndexOf(s, y), Victim(s, x);
            k < |s| && k != v && IndexOf(Touch(s, x), y) == if k < v then k + 1 else k
  {
    var k, v := IndexOf(s, y), Victim(s, x);
    var r := Touch(s, x);
    var j := IndexOf(r, y);
    assert s[if j - 1 < v then j - 1 else j] == y;
    IndexOfIs(r, y, if k < v then k + 1 else k);
  }

  // ----- what a set holds, from the history of references alone

  ghost predicate Distinct<T>(s: seq<T>) {
    forall i, j :: 0 <= i < j < |s| ==> s[i] != s[j]
  }

  /** x, then r without its first x. */
  ghost function MoveToFront<T>(r: seq<T>, x: T): (r': seq<T>) {
    var i := IndexOf(r, x);
    [x] + if i < |r| then RemoveAt(r, i) else r
  }

  /** The distinct elements of h, the most recently referenced first. */
  ghost function Recency<T(!new)>(h: seq<T>): (r: seq<T>)
    ensures Distinct(r)
    ensures forall x :: x in r <==> x in h
  {
    if h == [] then []
    else
      assert h == Front(h) + [Last(h)];
      MoveToFront(Recency(Front(h)), Last(h))
  }

  ghost function Fill<T>(x: T, n: nat): seq<T> {
    seq(n, _ => x)
  }

  /** The first n entries of: the tags referenced, most recent first, then the initial fill z. */
  ghost function Window<T(!new)>(n: nat, h: seq<T>, z: T): (r: seq<T>)
    ensures |r| == n
  {
    (Recency(h) + Fill(z, n))[..n]
  }

  lemma IndexOfIs<T>(s: seq<T>, x: T, i: nat)
    requires i < |s| && s[i] == x && forall k :: 0 <= k < i ==> s[k] != x
    ensures IndexOf(s, x) == i
  {
  }

  lemma VictimInWindow<T>(n: nat, r: seq<T>, t: T, z: T)
    requires n > 0
    ensures var i := IndexOf(r, t);
            Victim((r + Fill(z, n))[..n], t) == if i < n && (i < |r| || t == z) then i else n - 1
  {
    var w, i := (r + Fill(z, n))[..n], IndexOf(r, t);
    if i < n && (i < |r| || t == z) {
      IndexOfIs(w, t, i);
    }
  }

  /** Moving t to the front of r, seen through a window of n entries padded with z. */
  lemma MoveInWindow<T>(n: nat, r: seq<T>, t: T, z: T)
    requires n > 0
    ensures Touch((r + Fill(z, n))[..n], t) == (MoveToFront(r, t) + Fill(z, n))[..n]
  {
    VictimInWindow(n, r, t, z);
    var w, i := (r + Fill(z, n))[..n], IndexOf(r, t);
    var rest := if i < |r| then RemoveAt(r, i) else r;
    assert RemoveAt(w, Victim(w, t)) == (rest + Fill(z, n))[..n - 1];
  }

  /** One reference moves the window over the history by one. */
  lemma WindowStep<T(!new)>(n: nat, h: seq<T>, t: T, z: T)
    requires n > 0
    ensures Touch(Window(n, h, z), t) == Window(n, h + [t], z)
  {
    assert Front(h + [t]) == h;
    MoveInWindow(n, Recency(h), t, z);
  }

  lemma WindowOfNothing<T(!new)>(n: nat, z: T)
    ensures Window(n, [], z) == Fill(z, n)
  {
  }

  /** After any history, a set that started filled with z holds exactly the window. */
  lemma {:induction false} ExactHistory<T(!new)>(n: nat, h: seq<T>, z: T)
    requires n > 0
    ensures Run(Fill(z, n), h) == Window(n, h, z)
  {
    hide Touch, Window;
    if h == [] {
      WindowOfNothing(n, z);
    } else {
      ExactHistory(n, Front(h), z);
      WindowStep(n, Front(h), Last(h), z);
      assert h == Front(h) + [Last(h)];
    }
  }

  // ----- the same, as a reuse distance

  /** The elements referenced after the last reference to t. */
  ghost function Since<T>(h: seq<T>, t: T): set<T> {
    if h == [] || Last(h) == t then {} else Since(Front(h), t) + {Last(h)}
  }

  ghost function Elements<T>(s: seq<T>): set<T> {
    if s == [] then {} else {s[0]} + Elements(s[1..])
  }

  lemma {:induction false} InElements<T>(s: seq<T>, x: T)
    ensures x in Elements(s) <==> x in s
  {
    if s != [] {
      InElements(s[1..], x);
    }
  }

  lemma {:induction false} DistinctSize<T>(s: seq<T>)
    requires Distinct(s)
    ensures |Elements(s)| == |s|
  {
    if s != [] {
      DistinctSize(s[1..]);
      InElements(s[1..], s[0]);
    }
  }

  lemma {:induction false} ElementsConcat<T>(a: seq<T>, b: seq<T>)
    ensures Elements(a + b) == Elements(a) + Elements(b)
  {
    if a == [] {
      assert a + b == b;
    } else {
      ElementsConcat(a[1..], b);
      assert (a + b)[1..] == a[1..] + b;
    }
  }

  lemma IndexAfterMove<T>(r: seq<T>, u: T, t: T)
    requires t in r && u != t
    ensures var k := IndexOf(r, t);
            IndexOf(MoveToFront(r, u), t) == (if IndexOf(r, u) < k then k else k + 1) < |MoveToFront(r, u)|
  {
    hide IndexOf;
    var k := IndexOf(r, t);
    IndexOfIs(MoveToFront(r, u), t, if IndexOf(r, u) < k then k else k + 1);
  }

  lemma {:induction false} BeforeInRecency<T(!new)>(h: seq<T>, t: T)
    requires t in h
    ensures IndexOf(Recency(h), t) < |Recency(h)|
    ensures Elements(Recency(h)[..IndexOf(Recency(h), t)]) == Since(h, t)
  {
    hide IndexOf, Elements;
    var u := Last(h);
    assert h == Front(h) + [u];
    if u == t {
      IndexOfIs(Recency(h), t, 0);
      NoElements<T>();
    } else {
      hide MoveToFront;
      BeforeInRecency(Front(h), t);
      var r, k := Recency(Front(h)), IndexOf(Recency(Front(h)), t);
      IndexAfterMove(r, u, t);
      MoveInFront(r, u, k);
    }
  }

  lemma NoElements<T>()
    ensures Elements<T>([]) == {}
  {
  }

  /** Moving u to the front adds u to the elements in front of position k. */
  lemma MoveInFront<T>(r: seq<T>, u: T, k: nat)
    requires k < |r|
    ensures var i := IndexOf(r, u);
            Elements(MoveToFront(r, u)[..if i < k then k else k + 1]) == Elements(r[..k]) + {u}
  {
    var i := IndexOf(r, u);
    if i < k {
      var p, q := r[..i], r[i + 1..k];
      assert MoveToFront(r, u)[..k] == [u] + (p + q);
      assert r[..k] == p + ([u] + q);
      ElementsConcat([u], p + q);
      ElementsConcat(p, q);
      ElementsConcat([u], q);
      ElementsConcat(p, [u] + q);
    } else {
      assert MoveToFront(r, u)[..k + 1] == [u] + r[..k];
      ElementsConcat([u], r[..k]);
    }
  }

  /** The reuse distance of LRU: a tag that was referenced is resident exactly when fewer than n distinct
      tags have been referenced since.  One that was not is resident only if it is the fill, and as long
      as fewer than n distinct tags have been referenced at all. */
  lemma HitIffReuseDistance<T(!new)>(n: nat, h: seq<T>, z: T, t: T)
    requires n > 0
    ensures t in Run(Fill(z, n), h) <==> if t in h then |Since(h, t)| < n else t == z && |Recency(h)| < n
  {
    hide Since, Elements, Run, MoveToFront;
    ExactHistory(n, h, z);
    var r, w := Recency(h), Window(n, h, z);
    var i := IndexOf(r, t);
    if t in h {
      BeforeInRecency(h, t);
      DistinctSize(r[..i]);
      if i < n {
        assert w[i] == t;
      } else {
        NotInWindow(n, r, t, z, i);
      }
    } else if |r| < n {
      assert w[|r|] == z;
    }
  }

  /** Further down than n, a tag of a list without repetitions is out of sight. */
  lemma NotInWindow<T>(n: nat, r: seq<T>, t: T, z: T, i: nat)
    requires n <= i < |r| && r[i] == t && Distinct(r)
    ensures t !in (r + Fill(z, n))[..n]
  {
  }

  // ----- inclusion

  /** A smaller set that is a prefix of a larger one stays a prefix, and hits only where it hits. */
  lemma TouchKeepsPrefix<T>(s: seq<T>, S: seq<T>, x: T)
    requires s != [] && s <= S
    ensures Touch(s, x) <= Touch(S, x)
    ensures x in s ==> x in S
  {
    var i := IndexOf(s, x);
    if i < |s| {
      IndexOfIs(S, x, i);
    } else {
      assert IndexOf(S, x) >= |s|;
    }
  }

  // ----- relabelling

  ghost function Map<T, U>(f: T -> U, s: seq<T>): (r: seq<U>)
    ensures |r| == |s| && forall k :: 0 <= k < |s| ==> r[k] == f(s[k])
  {
    seq(|s|, k requires 0 <= k < |s| => f(s[k]))
  }

  /** Renaming tags commutes with a reference when no resident tag is confused with x. */
  lemma TouchRelabel<T, U>(f: T -> U, s: seq<T>, x: T)
    requires s != []
    requires forall y :: y in s && f(y) == f(x) ==> y == x
    ensures Touch(Map(f, s), f(x)) == Map(f, Touch(s, x))
    ensures f(x) in Map(f, s) <==> x in s
  {
    var i := IndexOf(s, x);
    if i < |s| {
      IndexOfIs(Map(f, s), f(x), i);
      assert Map(f, s)[i] == f(x);
    } else {
      assert IndexOf(Map(f, s), f(x)) == |s|;
    }
  }
}
