/** What the shadow stack makes of a program whose calls and returns match: the frame of every call, told
    field by field, and the stack, the inclusive costs and the return counters after nested calls. */
module CallNesting {
  import opened Options
  import opened Lru
  import opened CallModel
  import opened CallSetup

  /** No frame of t is gone when the stack pointer is sp. */
  predicate NoneGone(t: Tracer, sp: nat) {
    t.stack == [] || sp <= t.stack[|t.stack| - 1].sp
  }

  lemma NothingUnwound(t: Tracer, sp: nat)
    requires Valid(t) && NoneGone(t, sp)
    ensures Unwind(t, sp, 0) == t
  {
  }

  // ----- one call

  /** The caller a call is charged to: within skipped functions it is the block that entered them. */
  function CallerOf(p: Program, nonskipped: Option<nat>, c: Block): (caller: (nat, nat)) {
    if !c.skip && nonskipped.Some? then (nonskipped.value, p.lastJump(nonskipped.value)) else (c.last, c.passed)
  }

  function SkippedFrom(nonskipped: Option<nat>, c: Block): Option<nat> {
    if !c.skip then None else if nonskipped.None? then Some(c.last) else nonskipped
  }

  /** The frame of a call, field by field. */
  ghost predicate IsFrameOf(p: Program, t: Tracer, c: Block, sp: nat, e: Entry) {
    var (from, jmp) := CallerOf(p, t.nonskipped, c);
    && e.jcc == (if c.skip then None else Some(Arc(from, jmp, c.to)))
    && e.sp == sp
    && e.retAddr == p.retOf(from, jmp)
    && |e.enter| == |t.cost| == |c.delta| && (forall i :: 0 <= i < |t.cost| ==> e.enter[i] == t.cost[i] + c.delta[i])
    && e.nonskipped == t.nonskipped
  }

  /** Nothing but the stack, the events counted and the skipping block change. */
  ghost predicate OnlyCounts(t: Tracer, delta: Cost, t': Tracer) {
    && |t'.cost| == |t.cost| == |delta| && (forall i :: 0 <= i < |t.cost| ==> t'.cost[i] == t.cost[i] + delta[i])
    && t'.stored == t.stored && t'.printed == t.printed && t'.retCounter == t.retCounter
  }

  /** A call below whose stack pointer no frame lies adds exactly its frame. */
  lemma CallPushes(p: Program, t: Tracer, c: Block)
    requires Valid(t) && Fits(t, c) && c.kind == Call && NoneGone(t, c.sp)
    ensures var t' := Setup(p, t, c);
            && |t'.stack| == |t.stack| + 1 && t'.stack[..|t.stack|] == t.stack
            && IsFrameOf(p, t, c, c.sp, t'.stack[|t.stack|])
            && t'.nonskipped == SkippedFrom(t.nonskipped, c)
            && OnlyCounts(t, c.delta, t')
  {
    NothingUnwound(Count(t, c.delta), c.sp);
  }

  /** A jump that is not taken for a call leaves the stack alone while no frame is gone. */
  lemma JumpStays(p: Program, t: Tracer, b: Block)
    requires Valid(t) && Fits(t, b) && (b.kind == Jump || b.kind == NoJump) && (!b.converts || !b.hasLast) && NoneGone(t, b.sp)
    ensures var t' := Setup(p, t, b);
            t'.stack == t.stack && t'.nonskipped == t.nonskipped && OnlyCounts(t, b.delta, t')
  {
    NothingUnwound(Count(t, b.delta), b.sp);
  }

  /** A jump into a function is taken for a call, at the stack pointer of the frame it is made in. */
  lemma JumpIntoFunctionPushes(p: Program, t: Tracer, b: Block)
    requires Valid(t) && Fits(t, b) && (b.kind == Jump || b.kind == NoJump) && b.hasLast && b.converts && NoneGone(t, b.sp)
    requires !b.popOnJump || t.stack == [] || t.stack[|t.stack| - 1].jcc.None?
    ensures var t' := Setup(p, t, b);
            && |t'.stack| == |t.stack| + 1 && t'.stack[..|t.stack|] == t.stack
            && IsFrameOf(p, t, b, if t.stack == [] then b.sp else t.stack[|t.stack| - 1].sp, t'.stack[|t.stack|])
            && t'.nonskipped == SkippedFrom(t.nonskipped, b)
            && OnlyCounts(t, b.delta, t')
  {
    NothingUnwound(Count(t, b.delta), b.sp);
  }

  /** Frames below the stack pointer make any call or jump a return: they are removed, nothing is pushed. */
  lemma GoneFramesReturn(p: Program, t: Tracer, b: Block)
    requires Valid(t) && Fits(t, b) && Ordered(t.stack) && b.kind != Return && (!b.popOnJump || !b.converts || b.kind == Call)
    requires !NoneGone(t, b.sp)
    ensures var left := Setup(p, t, b).stack;
            && left < t.stack
            && (forall k :: 0 <= k < |left| ==> t.stack[k].sp >= b.sp)
            && (forall k :: |left| <= k < |t.stack| ==> t.stack[k].sp < b.sp)
  {
    var t0 := Count(t, b.delta);
    assert Setup(p, t, b).stack == Unwind(t0, b.sp, 0).stack by { UnwindShrinks(t0, b.sp); }
    UnwindKeepsHigh(t0, b.sp);
  }

  lemma {:induction false} UnwindKeepsHigh(t: Tracer, sp: nat)
    requires Valid(t) && Ordered(t.stack)
    ensures var left := Unwind(t, sp, 0).stack;
            && left <= t.stack && (forall k :: 0 <= k < |left| ==> t.stack[k].sp >= sp)
            && (forall k :: |left| <= k < |t.stack| ==> t.stack[k].sp < sp)
    decreases |t.stack|
  {
    hide Pop;
    if !NoneGone(t, sp) {
      PrefixOrdered(t.stack, |t.stack| - 1);
      UnwindMinpops(Pop(t), sp, -1);
      UnwindKeepsHigh(Pop(t), sp);
    }
  }

  lemma {:induction false} UnwindMinpops(t: Tracer, sp: nat, minpops: int)
    requires Valid(t) && minpops <= 0
    ensures Unwind(t, sp, minpops) == Unwind(t, sp, 0)
    decreases |t.stack|
  {
    if !NoneGone(t, sp) {
      UnwindMinpops(Pop(t), sp, minpops - 1);
      UnwindMinpops(Pop(t), sp, -1);
    }
  }

  lemma {:induction false} UnwindAtMost(t: Tracer, sp: nat, minpops: int)
    requires Valid(t)
    ensures |Unwind(t, sp, minpops).stack| <= |t.stack|
    decreases |t.stack|
  {
    if t.stack != [] && (Top(t.stack).sp < sp || (Top(t.stack).sp == sp && minpops > 0)) {
      UnwindAtMost(Pop(t), sp, minpops - 1);
    }
  }

  lemma UnwindShrinks(t: Tracer, sp: nat)
    requires Valid(t) && !NoneGone(t, sp)
    ensures |Unwind(t, sp, 0).stack| < |t.stack|
  {
    UnwindAtMost(Pop(t), sp, -1);
  }

  // ----- one return

  /** The return leaves exactly the top frame e: the stack pointer has left it, but not the frame below it,
      or it is where it was at the call and e expects to return here. */
  predicate Leaves(below: seq<Entry>, e: Entry, r: Block) {
    && r.kind == Return && (below == [] || r.sp <= below[|below| - 1].sp)
    && if r.sp == e.sp then r.addr == e.retAddr else r.sp > e.sp
  }

  ghost function Counter(m: map<nat, nat>, x: nat): nat {
    if x in m then m[x] else 0
  }

  /** What was counted since the call of e goes to its arc; no other arc changes. */
  ghost predicate Charged(before: map<Arc, Cost>, after: map<Arc, Cost>, e: Entry, cost: Cost) {
    && Sized(before, |cost|) && Sized(after, |cost|) && (e.jcc.Some? ==> AtMost(e.enter, cost))
    && forall a, i :: 0 <= i < |cost| ==>
         Of(after, a, |cost|)[i] == Of(before, a, |cost|)[i] + if e.jcc == Some(a) then cost[i] - e.enter[i] else 0
  }

  /** A matching return removes the frame, restores the skipping block, and moves what was counted since the
      call to its arc; the caller gets one more return when that was anything. */
  lemma ReturnPopsFrame(p: Program, t: Tracer, r: Block, below: seq<Entry>, e: Entry)
    requires Valid(t) && Fits(t, r) && t.stack == below + [e] && Leaves(below, e, r)
    ensures var t' := Setup(p, t, r);
            && t'.stack == below && t'.nonskipped == e.nonskipped && t'.printed == t.printed
            && |t'.cost| == |t.cost| && (forall i :: 0 <= i < |t.cost| ==> t'.cost[i] == t.cost[i] + r.delta[i])
            && Charged(t.stored, t'.stored, e, t'.cost)
            && (forall x :: Counter(t'.retCounter, x) == Counter(t.retCounter, x)
                  + if e.jcc.Some? && e.jcc.value.from == x && e.enter != t'.cost then 1 else 0)
  {
    hide Pop, Matching;
    var t0 := Count(t, r.delta);
    assert Top(t0.stack) == e && t0.stack[..|t0.stack| - 1] == below;
    assert ReturnPops(t0.stack, r.sp, r.addr) == 1 by { OneFrameMatches(t0.stack, r.sp, r.addr); }
    assert Unwind(t0, r.sp, 1) == Unwind(Pop(t0), r.sp, 0);
    NothingUnwound(Pop(t0), r.sp);
    assert Setup(p, t, r) == Pop(t0);
    assert t.stack[|below|] == e;
    PopFrame(t0, e);
  }

  lemma OneFrameMatches(stack: seq<Entry>, sp: nat, addr: nat)
    requires stack != []
    ensures Top(stack).retAddr == addr ==> Matching(stack, sp, addr) == 1
  {
  }

  lemma PopFrame(t: Tracer, e: Entry)
    requires Valid(t) && t.stack != [] && t.stack[|t.stack| - 1] == e
    ensures var t' := Pop(t);
            && t'.nonskipped == e.nonskipped && t'.printed == t.printed
            && Charged(t.stored, t'.stored, e, t.cost)
            && (forall x :: Counter(t'.retCounter, x) == Counter(t.retCounter, x)
                  + if e.jcc.Some? && e.jcc.value.from == x && e.enter != t.cost then 1 else 0)
  {
  }

  /** Frame k expects to return to addr, and it and all frames above it are at sp. */
  predicate Awaits(stack: seq<Entry>, sp: nat, addr: nat, k: nat) {
    k < |stack| && stack[k].retAddr == addr && forall j :: k <= j < |stack| ==> stack[j].sp == sp
  }

  /** Among the frames at the stack pointer, a match is found exactly when there is one. */
  lemma {:induction false} MatchingIff(stack: seq<Entry>, sp: nat, addr: nat)
    requires stack != [] && stack[|stack| - 1].sp == sp
    ensures Matching(stack, sp, addr) > 0 <==> exists k :: Awaits(stack, sp, addr, k)
  {
    var front := stack[..|stack| - 1];
    if stack[|stack| - 1].retAddr == addr {
      assert Awaits(stack, sp, addr, |stack| - 1);
    } else {
      assert forall k :: Awaits(stack, sp, addr, k) ==> Awaits(front, sp, addr, k);
      if |stack| > 1 && stack[|stack| - 2].sp == sp {
        MatchingIff(front, sp, addr);
        assert forall k :: Awaits(front, sp, addr, k) ==> Awaits(stack, sp, addr, k);
      }
    }
  }

  /** A return is not one while the stack pointer is inside the top frame, or at it with no frame there that
      expects to return here: then it is taken for a call. */
  lemma UnmatchedReturnPushes(p: Program, t: Tracer, b: Block)
    requires Valid(t) && Fits(t, b) && b.kind == Return && t.stack != [] && NoneGone(t, b.sp)
    requires b.sp == t.stack[|t.stack| - 1].sp ==> forall k :: !Awaits(t.stack, b.sp, b.addr, k)
    requires !b.popOnJump || t.stack[|t.stack| - 1].jcc.None?
    ensures var t' := Setup(p, t, b);
            && |t'.stack| == |t.stack| + 1 && t'.stack[..|t.stack|] == t.stack
            && IsFrameOf(p, t, b, t.stack[|t.stack| - 1].sp, t'.stack[|t.stack|])
            && t'.nonskipped == SkippedFrom(t.nonskipped, b)
            && OnlyCounts(t, b.delta, t')
  {
    hide Matching, Awaits;
    NothingUnwound(Count(t, b.delta), b.sp);
    if b.sp == t.stack[|t.stack| - 1].sp {
      MatchingIff(t.stack, b.sp, b.addr);
    }
  }

  /** A jump into a function from one that pops on jumps replaces the frame: the call that brought it in
      ends, and the new one comes from the same place. */
  lemma PopOnJumpReplaces(p: Program, t: Tracer, b: Block, below: seq<Entry>, e: Entry)
    requires Valid(t) && Fits(t, b) && (b.kind == Jump || b.kind == NoJump) && b.hasLast && b.converts && b.popOnJump
    requires t.stack == below + [e] && e.jcc.Some? && (below == [] || e.sp <= below[|below| - 1].sp)
    ensures var t', from := Setup(p, t, b), b.(last := e.jcc.value.from, passed := e.jcc.value.jmp);
            && |t'.stack| == |below| + 1 && t'.stack[..|below|] == below
            && IsFrameOf(p, t.(stack := below, nonskipped := e.nonskipped), from,
                         if below == [] then e.sp else below[|below| - 1].sp, t'.stack[|below|])
            && t'.nonskipped == SkippedFrom(e.nonskipped, from)
            && Charged(t.stored, t'.stored, e, t'.cost)
  {
    hide Pop, Of;
    var t0 := Count(t, b.delta);
    assert Top(t0.stack) == e && t0.stack[..|t0.stack| - 1] == below && t.stack[|below|] == e;
    PopFrame(t0, e);
    NothingUnwound(Pop(t0), e.sp);
  }

  /** A return with no frame left charges the assumed call with what was counted since it was entered. */
  lemma UnderflowCharges(p: Program, t: Tracer, b: Block)
    requires Valid(t) && Fits(t, b) && b.kind == Return && t.stack == []
    ensures var t', e := Setup(p, t, b), Entry(Some(Arc(b.source, 0, b.last)), TOP_ADDRESS, p.retOf(b.source, 0), b.since, None);
            && t'.stack == [] && t'.nonskipped.None? && Charged(t.stored, t'.stored, e, t'.cost)
            && (forall x :: Counter(t'.retCounter, x) == Counter(t.retCounter, x)
                  + if b.source == x && b.since != t'.cost then 1 else 0)
  {
    hide Pop, Of, Setup, Charged, Counter, Valid, Fits;
    var t1 := UnderflowIsPop(p, t, b);
    PopFrame(t1, t1.stack[0]);
  }

  /** It pushes the assumed call and pops it again. */
  lemma UnderflowIsPop(p: Program, t: Tracer, b: Block) returns (t1: Tracer)
    requires Valid(t) && Fits(t, b) && b.kind == Return && t.stack == []
    ensures Valid(t1) && |t1.stack| == 1 && Setup(p, t, b) == Pop(t1) && t1.retCounter == t.retCounter && t1.stored == t.stored
    ensures t1.stack[0] == Entry(Some(Arc(b.source, 0, b.last)), TOP_ADDRESS, p.retOf(b.source, 0), b.since, None)
  {
    hide Pop;
    var t0 := Count(t, b.delta);
    t1 := PushAt(t0.(nonskipped := None), Arc(b.source, 0, b.last), false, TOP_ADDRESS, p.retOf(b.source, 0), b.since);
  }

  // ----- nested calls

  /** A part of a run in which calls and returns match: blocks of the current function, and calls with what
      happens inside them up to the block returned to. */
  datatype Path =
    | Done
    | Stay(b: Block, rest: Path)
    | Nest(c: Block, inner: Path, r: Block, rest: Path)

  function Blocks(path: Path): seq<Block> {
    match path
    case Done => []
    case Stay(b, rest) => [b] + Blocks(rest)
    case Nest(c, inner, r, rest) => [c] + Blocks(inner) + [r] + Blocks(rest)
  }

  /** floor is the stack pointer of the frame the path runs in, if there is one. */
  predicate Matched(p: Program, floor: Option<nat>, nonskipped: Option<nat>, path: Path)
    decreases path
  {
    match path
    case Done => true
    case Stay(b, rest) =>
      && (b.kind == Jump || b.kind == NoJump) && !b.converts && (floor.Some? ==> b.sp <= floor.value)
      && Matched(p, floor, nonskipped, rest)
    case Nest(c, inner, r, rest) =>
      var (from, jmp) := CallerOf(p, nonskipped, c);
      && c.kind == Call && (floor.Some? ==> c.sp <= floor.value)
      && Matched(p, Some(c.sp), SkippedFrom(nonskipped, c), inner)
      && r.kind == Return
      && (if r.sp == c.sp then r.addr == p.retOf(from, jmp) else r.sp > c.sp) && (floor.Some? ==> r.sp <= floor.value)
      && Matched(p, floor, nonskipped, rest)
  }

  ghost predicate FitsAll(p: Program, t: Tracer, bs: seq<Block>)
    requires Valid(t)
    decreases |bs|
  {
    bs == [] || (Fits(t, bs[0]) && FitsAll(p, Setup(p, t, bs[0]), bs[1..]))
  }

  ghost function RunOf(p: Program, t: Tracer, bs: seq<Block>): (t': Tracer)
    requires Valid(t) && FitsAll(p, t, bs)
    ensures Valid(t') && |t'.cost| == |t.cost|
    decreases |bs|
  {
    if bs == [] then t else RunOf(p, Setup(p, t, bs[0]), bs[1..])
  }

  lemma {:induction false} RunConcat(p: Program, t: Tracer, bs: seq<Block>, cs: seq<Block>)
    requires Valid(t) && FitsAll(p, t, bs + cs)
    ensures FitsAll(p, t, bs) && FitsAll(p, RunOf(p, t, bs), cs)
    ensures RunOf(p, t, bs + cs) == RunOf(p, RunOf(p, t, bs), cs)
    decreases |bs|
  {
    hide Setup;
    if bs == [] {
      assert bs + cs == cs;
    } else {
      assert (bs + cs)[1..] == bs[1..] + cs;
      RunConcat(p, Setup(p, t, bs[0]), bs[1..], cs);
    }
  }

  /** The events i counted on entering the blocks of a path. */
  ghost function Counted(bs: seq<Block>, i: nat): nat {
    if bs == [] then 0 else (if i < |bs[0].delta| then bs[0].delta[i] else 0) + Counted(bs[1..], i)
  }

  /** What the calls of a path add to the stored cost of an arc: for each call on that arc, nested ones
      included, the events counted from its first block to the block returned to. */
  ghost function Inclusive(p: Program, nonskipped: Option<nat>, path: Path, a: Arc, i: nat): nat
    decreases path
  {
    match path
    case Done => 0
    case Stay(_, rest) => Inclusive(p, nonskipped, rest, a, i)
    case Nest(c, inner, r, rest) =>
      var (from, jmp) := CallerOf(p, nonskipped, c);
      (if !c.skip && a == Arc(from, jmp, c.to) then Counted(Blocks(inner) + [r], i) else 0)
      + Inclusive(p, SkippedFrom(nonskipped, c), inner, a, i)
      + Inclusive(p, nonskipped, rest, a, i)
  }

  ghost predicate Anything(n: nat, bs: seq<Block>) {
    exists i :: 0 <= i < n && Counted(bs, i) > 0
  }

  /** The calls from block x in a path during which anything was counted. */
  ghost function ReturnsTo(p: Program, n: nat, nonskipped: Option<nat>, path: Path, x: nat): nat
    decreases path
  {
    match path
    case Done => 0
    case Stay(_, rest) => ReturnsTo(p, n, nonskipped, rest, x)
    case Nest(c, inner, r, rest) =>
      (if !c.skip && CallerOf(p, nonskipped, c).0 == x && Anything(n, Blocks(inner) + [r])
       then 1 else 0)
      + ReturnsTo(p, n, SkippedFrom(nonskipped, c), inner, x)
      + ReturnsTo(p, n, nonskipped, rest, x)
  }

  function FloorOf(stack: seq<Entry>): Option<nat> {
    if stack == [] then None else Some(stack[|stack| - 1].sp)
  }

  /** The stored cost of arc a has grown by g. */
  ghost predicate Grown(t: Tracer, t': Tracer, a: Arc, i: nat, g: nat)
    requires Valid(t) && Valid(t') && i < |t.cost| == |t'.cost|
  {
    Of(t'.stored, a, |t.cost|)[i] == Of(t.stored, a, |t.cost|)[i] + g
  }

  /** What a path leaves: everything as it was but the costs and the return counters, which have grown by
      what the path says. */
  ghost predicate Bracketed(p: Program, t: Tracer, path: Path, t': Tracer)
    requires Valid(t) && Valid(t')
  {
    && t'.stack == t.stack && t'.nonskipped == t.nonskipped && t'.printed == t.printed && |t'.cost| == |t.cost|
    && (forall i :: 0 <= i < |t.cost| ==> t'.cost[i] == t.cost[i] + Counted(Blocks(path), i))
    && (forall a, i :: 0 <= i < |t.cost| ==> Grown(t, t', a, i, Inclusive(p, t.nonskipped, path, a, i)))
    && (forall x :: Counter(t'.retCounter, x) == Counter(t.retCounter, x) + ReturnsTo(p, |t.cost|, t.nonskipped, path, x))
  }

  lemma {:induction false} CountedConcat(bs: seq<Block>, cs: seq<Block>, i: nat)
    ensures Counted(bs + cs, i) == Counted(bs, i) + Counted(cs, i)
  {
    if bs == [] {
      assert bs + cs == cs;
    } else {
      assert (bs + cs)[1..] == bs[1..] + cs;
      CountedConcat(bs[1..], cs, i);
    }
  }

  lemma CountedOne(b: Block, i: nat)
    requires i < |b.delta|
    ensures Counted([b], i) == b.delta[i]
  {
    assert Counted([b][1..], i) == 0;
  }

  lemma RunOne(p: Program, t: Tracer, b: Block, bs: seq<Block>)
    requires Valid(t) && FitsAll(p, t, [b] + bs)
    ensures Fits(t, b) && FitsAll(p, Setup(p, t, b), bs)
    ensures RunOf(p, t, [b] + bs) == RunOf(p, Setup(p, t, b), bs)
  {
    assert ([b] + bs)[1..] == bs;
  }

  /** The three stretches of a nested call: entering it, what happens inside, and leaving it. */
  lemma NestRun(p: Program, t: Tracer, c: Block, inner: Path, r: Block, rest: Path)
    requires Valid(t) && FitsAll(p, t, Blocks(Nest(c, inner, r, rest)))
    ensures Fits(t, c) && FitsAll(p, Setup(p, t, c), Blocks(inner))
    ensures var t2 := RunOf(p, Setup(p, t, c), Blocks(inner));
            && Fits(t2, r) && FitsAll(p, Setup(p, t2, r), Blocks(rest))
            && RunOf(p, t, Blocks(Nest(c, inner, r, rest))) == RunOf(p, Setup(p, t2, r), Blocks(rest))
  {
    hide Setup, Fits;
    var i, e := Blocks(inner), Blocks(rest);
    assert Blocks(Nest(c, inner, r, rest)) == [c] + (i + ([r] + e));
    RunOne(p, t, c, i + ([r] + e));
    RunConcat(p, Setup(p, t, c), i, [r] + e);
    RunOne(p, RunOf(p, Setup(p, t, c), i), r, e);
  }

  /** Calls and returns that match leave the stack as it was, and every arc has grown by exactly the events
      counted inside its calls. */
  lemma {:induction false} CallsBracket(p: Program, t: Tracer, path: Path)
    requires Valid(t) && Matched(p, FloorOf(t.stack), t.nonskipped, path) && FitsAll(p, t, Blocks(path))
    ensures Bracketed(p, t, path, RunOf(p, t, Blocks(path)))
    decreases path
  {
    hide Setup, Bracketed, Inclusive, ReturnsTo, Counted, FitsAll, RunOf;
    match path
    case Done =>
      NothingBrackets(p, t);
    case Stay(b, rest) =>
      RunOne(p, t, b, Blocks(rest));
      JumpStays(p, t, b);
      CallsBracket(p, Setup(p, t, b), rest);
      StayBrackets(p, t, b, rest, Setup(p, t, b), RunOf(p, Setup(p, t, b), Blocks(rest)));
    case Nest(c, inner, r, rest) =>
      NestRun(p, t, c, inner, r, rest);
      CallPushes(p, t, c);
      var t1 := Setup(p, t, c);
      CallsBracket(p, t1, inner);
      var t2 := RunOf(p, t1, Blocks(inner));
      InnerKeeps(p, t1, inner, t2);
      var e := t1.stack[|t.stack|];
      assert t2.stack == t.stack + [e];
      ReturnPopsFrame(p, t2, r, t.stack, e);
      var t3 := Setup(p, t2, r);
      CallsBracket(p, t3, rest);
      NestBrackets(p, t, c, inner, r, rest, t1, t2, e, t3, RunOf(p, t3, Blocks(rest)));
  }

  lemma NothingBrackets(p: Program, t: Tracer)
    requires Valid(t)
    ensures FitsAll(p, t, Blocks(Done)) && RunOf(p, t, Blocks(Done)) == t && Bracketed(p, t, Done, t)
  {
  }

  lemma InnerKeeps(p: Program, t: Tracer, path: Path, t': Tracer)
    requires Valid(t) && Valid(t') && Bracketed(p, t, path, t')
    ensures t'.stack == t.stack && t'.nonskipped == t.nonskipped && |t'.cost| == |t.cost|
  {
  }

  lemma StayBrackets(p: Program, t: Tracer, b: Block, rest: Path, t1: Tracer, t': Tracer)
    requires Valid(t) && Valid(t1) && Valid(t') && |b.delta| == |t.cost|
    requires t1.stack == t.stack && t1.nonskipped == t.nonskipped && OnlyCounts(t, b.delta, t1) && Bracketed(p, t1, rest, t')
    ensures Bracketed(p, t, Stay(b, rest), t')
  {
    hide Of, Blocks, Counted, Inclusive, ReturnsTo;
    StayAdds(p, |t.cost|, t.nonskipped, b, rest);
    forall a, i | 0 <= i < |t.cost|
      ensures Grown(t, t', a, i, Inclusive(p, t.nonskipped, Stay(b, rest), a, i))
    {
      assert Grown(t1, t', a, i, Inclusive(p, t1.nonskipped, rest, a, i));
    }
  }

  lemma StayAdds(p: Program, n: nat, ns: Option<nat>, b: Block, rest: Path)
    requires |b.delta| == n
    ensures forall i :: 0 <= i < n ==> Counted(Blocks(Stay(b, rest)), i) == b.delta[i] + Counted(Blocks(rest), i)
    ensures forall a, i :: Inclusive(p, ns, Stay(b, rest), a, i) == Inclusive(p, ns, rest, a, i)
    ensures forall x :: ReturnsTo(p, n, ns, Stay(b, rest), x) == ReturnsTo(p, n, ns, rest, x)
  {
    assert ([b] + Blocks(rest))[1..] == Blocks(rest);
  }

  /** The events counted inside a call, and on all of its blocks. */
  lemma NestCounted(c: Block, inner: Path, r: Block, rest: Path, i: nat)
    requires i < |c.delta| && i < |r.delta|
    ensures Counted(Blocks(inner) + [r], i) == Counted(Blocks(inner), i) + r.delta[i]
    ensures Counted(Blocks(Nest(c, inner, r, rest)), i)
         == c.delta[i] + Counted(Blocks(inner), i) + r.delta[i] + Counted(Blocks(rest), i)
  {
    hide Counted;
    CountedConcat(Blocks(inner), [r], i);
    CountedConcat([c] + Blocks(inner) + [r], Blocks(rest), i);
    CountedConcat([c] + Blocks(inner), [r], i);
    CountedConcat([c], Blocks(inner), i);
    CountedOne(c, i);
    CountedOne(r, i);
  }

  /** The states of a nested call: t before it, t1 in its first block, t2 in its last, t3 after the return, t4
      after what follows, and the frame e of the call. */
  ghost predicate Nested(p: Program, t: Tracer, c: Block, inner: Path, r: Block, rest: Path,
                         t1: Tracer, t2: Tracer, e: Entry, t3: Tracer, t4: Tracer)
    requires Valid(t) && Valid(t1) && Valid(t2) && Valid(t3) && Valid(t4)
  {
    && |c.delta| == |r.delta| == |t.cost|
    && IsFrameOf(p, t, c, c.sp, e) && OnlyCounts(t, c.delta, t1) && t1.nonskipped == SkippedFrom(t.nonskipped, c)
    && Bracketed(p, t1, inner, t2)
    && t3.stack == t.stack && t3.nonskipped == e.nonskipped && t3.printed == t2.printed
    && |t3.cost| == |t2.cost| && (forall i :: 0 <= i < |t2.cost| ==> t3.cost[i] == t2.cost[i] + r.delta[i])
    && Charged(t2.stored, t3.stored, e, t3.cost)
    && (forall x :: Counter(t3.retCounter, x) == Counter(t2.retCounter, x)
          + if e.jcc.Some? && e.jcc.value.from == x && e.enter != t3.cost then 1 else 0)
    && Bracketed(p, t3, rest, t4)
  }

  lemma NestedCosts(p: Program, t: Tracer, c: Block, inner: Path, r: Block, rest: Path,
                    t1: Tracer, t2: Tracer, e: Entry, t3: Tracer, t4: Tracer, i: nat)
    requires Valid(t) && Valid(t1) && Valid(t2) && Valid(t3) && Valid(t4)
    requires Nested(p, t, c, inner, r, rest, t1, t2, e, t3, t4) && i < |t.cost|
    ensures |t.cost| == |t1.cost| == |t2.cost| == |t3.cost| == |t4.cost| == |e.enter|
    ensures t4.cost[i] == t.cost[i] + Counted(Blocks(Nest(c, inner, r, rest)), i)
    ensures t3.cost[i] == e.enter[i] + Counted(Blocks(inner) + [r], i)
  {
    hide Of, Counted, Blocks, Counter, Charged, Grown, Valid;
    NestCounted(c, inner, r, rest, i);
  }

  lemma NestedStored(p: Program, t: Tracer, c: Block, inner: Path, r: Block, rest: Path,
                     t1: Tracer, t2: Tracer, e: Entry, t3: Tracer, t4: Tracer, a: Arc, i: nat)
    requires Valid(t) && Valid(t1) && Valid(t2) && Valid(t3) && Valid(t4)
    requires Nested(p, t, c, inner, r, rest, t1, t2, e, t3, t4) && i < |t.cost| == |t4.cost|
    ensures Grown(t, t4, a, i, Inclusive(p, t.nonskipped, Nest(c, inner, r, rest), a, i))
  {
    hide Of, Counted, Blocks, Counter, Inclusive, Valid, ReturnsTo;
    NestedCosts(p, t, c, inner, r, rest, t1, t2, e, t3, t4, i);
    assert Grown(t1, t2, a, i, Inclusive(p, t1.nonskipped, inner, a, i));
    assert Grown(t3, t4, a, i, Inclusive(p, t.nonskipped, rest, a, i));
    InclusiveNest(p, t.nonskipped, c, inner, r, rest, a, i);
  }

  lemma NestedReturns(p: Program, t: Tracer, c: Block, inner: Path, r: Block, rest: Path,
                      t1: Tracer, t2: Tracer, e: Entry, t3: Tracer, t4: Tracer, x: nat)
    requires Valid(t) && Valid(t1) && Valid(t2) && Valid(t3) && Valid(t4)
    requires Nested(p, t, c, inner, r, rest, t1, t2, e, t3, t4)
    ensures Counter(t4.retCounter, x) == Counter(t.retCounter, x) + ReturnsTo(p, |t.cost|, t.nonskipped, Nest(c, inner, r, rest), x)
  {
    hide Of, Counted, Blocks, Counter, Inclusive, Valid, ReturnsTo, Charged, Grown;
    assert |t3.cost| == |e.enter| == |t.cost|;
    forall i | 0 <= i < |t.cost|
      ensures t3.cost[i] == e.enter[i] + Counted(Blocks(inner) + [r], i)
    {
      NestedCosts(p, t, c, inner, r, rest, t1, t2, e, t3, t4, i);
    }
    AnythingCounted(e.enter, t3.cost, Blocks(inner) + [r]);
    ReturnsNest(p, |t.cost|, t.nonskipped, c, inner, r, rest, x);
  }

  lemma NestBrackets(p: Program, t: Tracer, c: Block, inner: Path, r: Block, rest: Path,
                     t1: Tracer, t2: Tracer, e: Entry, t3: Tracer, t4: Tracer)
    requires Valid(t) && Valid(t1) && Valid(t2) && Valid(t3) && Valid(t4)
    requires Nested(p, t, c, inner, r, rest, t1, t2, e, t3, t4)
    ensures Bracketed(p, t, Nest(c, inner, r, rest), t4)
  {
    hide Of, Counted, Blocks, Counter, Inclusive, ReturnsTo, Charged, Valid;
    var all, n := Nest(c, inner, r, rest), |t.cost|;
    assert |t4.cost| == n && t4.stack == t.stack && t4.nonskipped == t.nonskipped && t4.printed == t.printed;
    forall i | 0 <= i < n
      ensures t4.cost[i] == t.cost[i] + Counted(Blocks(all), i)
    {
      NestedCosts(p, t, c, inner, r, rest, t1, t2, e, t3, t4, i);
    }
    forall a, i | 0 <= i < n
      ensures Grown(t, t4, a, i, Inclusive(p, t.nonskipped, all, a, i))
    {
      NestedStored(p, t, c, inner, r, rest, t1, t2, e, t3, t4, a, i);
    }
    forall x
      ensures Counter(t4.retCounter, x) == Counter(t.retCounter, x) + ReturnsTo(p, n, t.nonskipped, all, x)
    {
      NestedReturns(p, t, c, inner, r, rest, t1, t2, e, t3, t4, x);
    }
  }

  lemma AnythingCounted(enter: Cost, cost: Cost, bs: seq<Block>)
    requires |enter| == |cost| && forall i :: 0 <= i < |cost| ==> cost[i] == enter[i] + Counted(bs, i)
    ensures enter != cost <==> Anything(|cost|, bs)
  {
    if enter != cost {
      var i :| 0 <= i < |cost| && enter[i] != cost[i];
      assert Counted(bs, i) > 0;
    }
  }

  lemma InclusiveNest(p: Program, ns: Option<nat>, c: Block, inner: Path, r: Block, rest: Path, a: Arc, i: nat)
    ensures Inclusive(p, ns, Nest(c, inner, r, rest), a, i)
         == (if !c.skip && a == Arc(CallerOf(p, ns, c).0, CallerOf(p, ns, c).1, c.to) then Counted(Blocks(inner) + [r], i) else 0)
            + Inclusive(p, SkippedFrom(ns, c), inner, a, i) + Inclusive(p, ns, rest, a, i)
  {
  }

  lemma ReturnsNest(p: Program, n: nat, ns: Option<nat>, c: Block, inner: Path, r: Block, rest: Path, x: nat)
    ensures ReturnsTo(p, n, ns, Nest(c, inner, r, rest), x)
         == (if !c.skip && CallerOf(p, ns, c).0 == x && Anything(n, Blocks(inner) + [r]) then 1 else 0)
            + ReturnsTo(p, n, SkippedFrom(ns, c), inner, x) + ReturnsTo(p, n, ns, rest, x)
  {
  }

  function Entering(bs: seq<Block>): (h: seq<Action>)
    ensures |h| == |bs| && forall k :: 0 <= k < |bs| ==> h[k] == Enters(bs[k])
  {
    seq(|bs|, k requires 0 <= k < |bs| => Enters(bs[k]))
  }

  /** These stretches are parts of the runs from the start. */
  lemma {:induction false} RunGoesOn(p: Program, n: nat, h: seq<Action>, bs: seq<Block>)
    requires Runs(p, n, h) && FitsAll(p, Traced(p, n, h), bs)
    ensures Runs(p, n, h + Entering(bs)) && Traced(p, n, h + Entering(bs)) == RunOf(p, Traced(p, n, h), bs)
    decreases |bs|
  {
    hide Setup, Fits;
    if bs == [] {
      assert h + Entering(bs) == h;
    } else {
      var h' := h + [Enters(bs[0])];
      assert Front(h') == h && Last(h') == Enters(bs[0]);
      RunGoesOn(p, n, h', bs[1..]);
      assert h + Entering(bs) == h' + Entering(bs[1..]);
    }
  }
}
