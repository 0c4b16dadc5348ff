/** What happens to the shadow stack at the start of a basic block (setup_bbcc, unwind_call_stack) on
    values: the order of the recorded stack pointers, exact unwinding, and cost. */
module CallSetup {
  import opened Options
  import opened Lru
  import opened CallModel

  const TOP_ADDRESS: nat := 0xFFFF_FFFF_FFFF_FFFF

  datatype JumpKind = NoJump | Jump | Call | Return

  /** What setup_bbcc finds: the previous block and how it was left, and the block now entered. */
  datatype Block = Block(
    delta: Cost,       // events counted in the previous block
    hasLast: bool,
    kind: JumpKind,    // the jump taken at the end of the previous block
    last: nat,         // the previous block
    passed: nat,       // which of its jumps was taken
    sp: nat,
    addr: nat,
    to: nat,
    converts: bool,    // an entry of a function, or in another section or object
    popOnJump: bool,   // for the function of the previous block
    skip: bool,        // for the function now entered
    source: nat,       // on an underflow, the assumed caller
    since: Cost)       // and the cost since which its call is assumed to have lasted

  datatype Program = Program(
    retOf: (nat, nat) -> nat,  // the return address of a jump of a block, 0 if it is not a call
    lastJump: nat -> nat)      // the number of the jump at the end of a block

  ghost predicate Fits(t: Tracer, b: Block) {
    |b.delta| == |t.cost| && AtMost(b.since, t.cost) && (!b.hasLast ==> b.kind == NoJump)
  }

  function Top(stack: seq<Entry>): Entry
    requires stack != []
  {
    stack[|stack| - 1]
  }

  // ----- unwinding

  function Unwind(t: Tracer, sp: nat, minpops: int): (t': Tracer)
    requires Valid(t)
    ensures Valid(t') && t'.cost == t.cost
    decreases |t.stack|
  {
    if t.stack != [] && (Top(t.stack).sp < sp || (Top(t.stack).sp == sp && minpops > 0))
    then Unwind(Pop(t), sp, minpops - 1)
    else t
  }

  /** The recorded stack pointers never increase from bottom to top. */
  ghost predicate Ordered(stack: seq<Entry>) {
    forall i, j :: 0 <= i < j < |stack| ==> stack[j].sp <= stack[i].sp
  }

  ghost function Below(stack: seq<Entry>, sp: nat): nat {
    if stack == [] then 0 else Below(Front(stack), sp) + if Last(stack).sp < sp then 1 else 0
  }

  ghost function AtSp(stack: seq<Entry>, sp: nat): nat {
    if stack == [] then 0 else AtSp(Front(stack), sp) + if Last(stack).sp == sp then 1 else 0
  }

  function Clamp(x: int, hi: nat): (r: nat)
    ensures r <= hi
  {
    if x < 0 then 0 else if x > hi then hi else x
  }

  lemma {:induction false} Counts(stack: seq<Entry>, sp: nat)
    ensures Below(stack, sp) + AtSp(stack, sp) <= |stack|
    ensures Ordered(stack) && stack != [] && Last(stack).sp >= sp ==> Below(stack, sp) == 0
    ensures Ordered(stack) && stack != [] && Last(stack).sp > sp ==> AtSp(stack, sp) == 0
  {
    if stack != [] {
      Counts(Front(stack), sp);
    }
  }

  /** How many frames unwind_call_stack(sp, m) is meant to remove: those below sp, and of the frames at
      sp as many as m still allows after those. */
  ghost function Gone(stack: seq<Entry>, sp: nat, minpops: int): (g: nat)
    ensures g <= |stack|
  {
    Counts(stack, sp);
    Below(stack, sp) + Clamp(minpops - Below(stack, sp), AtSp(stack, sp))
  }

  lemma GoneAfterPop(stack: seq<Entry>, sp: nat, minpops: int)
    requires Ordered(stack) && stack != []
    ensures Last(stack).sp < sp || (Last(stack).sp == sp && minpops > 0)
            ==> Gone(stack, sp, minpops) == Gone(Front(stack), sp, minpops - 1) + 1
    ensures !(Last(stack).sp < sp || (Last(stack).sp == sp && minpops > 0)) ==> Gone(stack, sp, minpops) == 0
  {
    Counts(stack, sp);
    Counts(Front(stack), sp);
  }

  /** On an ordered stack, it removes exactly those. */
  lemma {:induction false} UnwindExact(t: Tracer, sp: nat, minpops: int)
    requires Valid(t) && Ordered(t.stack)
    ensures Unwind(t, sp, minpops).stack == t.stack[..|t.stack| - Gone(t.stack, sp, minpops)]
    decreases |t.stack|
  {
    if t.stack != [] {
      GoneAfterPop(t.stack, sp, minpops);
      assert Pop(t).stack == Front(t.stack);
      if Top(t.stack).sp < sp || (Top(t.stack).sp == sp && minpops > 0) {
        UnwindExact(Pop(t), sp, minpops - 1);
      }
    }
  }

  lemma PrefixOrdered(stack: seq<Entry>, k: nat)
    requires Ordered(stack) && k <= |stack|
    ensures Ordered(stack[..k])
  {
  }

  // ----- the step

  /** How many frames a return leaves: a frame at the same stack pointer counts only if, among the
      frames there, one expects to return to addr. */
  function Matching(stack: seq<Entry>, sp: nat, addr: nat): (r: nat)
    requires stack != []
    ensures r <= |stack|
  {
    if Top(stack).retAddr == addr then 1
    else if |stack| > 1 && stack[|stack| - 2].sp == sp then
      var r := Matching(stack[..|stack| - 1], sp, addr);
      if r == 0 then 0 else r + 1
    else 0
  }

  function ReturnPops(stack: seq<Entry>, sp: nat, addr: nat): (r: nat)
    requires stack != []
    ensures r <= |stack|
  {
    if sp < Top(stack).sp then 0 else if Top(stack).sp == sp then Matching(stack, sp, addr) else 1
  }

  /** handleUnderflow and the pop after it: a return from a call that was never seen. */
  function Underflow(p: Program, t: Tracer, b: Block): (t': Tracer)
    requires Valid(t) && AtMost(b.since, t.cost)
    ensures Valid(t') && t'.cost == t.cost && t'.stack == t.stack
  {
    var t1 := PushAt(t.(nonskipped := None), Arc(b.source, 0, b.last), false, TOP_ADDRESS, p.retOf(b.source, 0), b.since);
    Pop(t1)
  }

  /** A return that matches no frame is a jump. */
  function Unmatched(t: Tracer, b: Block): bool {
    b.kind == Return && t.stack != [] && ReturnPops(t.stack, b.sp, b.addr) == 0
  }

  /** A jump that is taken for a call. */
  function Emulated(t: Tracer, b: Block): bool {
    (b.kind == Jump || b.kind == NoJump || Unmatched(t, b)) && b.hasLast && (Unmatched(t, b) || b.converts)
  }

  function PopsOnJump(t: Tracer, b: Block): bool {
    Emulated(t, b) && b.popOnJump && t.stack != [] && Top(t.stack).jcc.Some?
  }

  /** The delayed push of a call: from skipped code the caller is the block that entered it. */
  function CallPush(p: Program, t: Tracer, b: Block, emulated: bool, from: nat, passed: nat, sp: nat): (t': Tracer)
    requires Valid(t)
    ensures Valid(t') && t'.cost == t.cost
  {
    var sp' := if emulated && t.stack != [] then Top(t.stack).sp else sp;
    var from' := if !b.skip && t.nonskipped.Some? then t.nonskipped.value else from;
    var passed' := if !b.skip && t.nonskipped.Some? then p.lastJump(from') else passed;
    Push(t, Arc(from', passed', b.to), b.skip, sp', p.retOf(from', passed'))
  }

  /** Calls and jumps: frames below the stack pointer are gone; unless that makes it a return, a call is
      pushed. */
  function Enter(p: Program, t: Tracer, b: Block, emulated: bool, from: nat, passed: nat, sp: nat): (t': Tracer)
    requires Valid(t)
    ensures Valid(t') && t'.cost == t.cost
  {
    var t2 := Unwind(t, sp, 0);
    if (b.kind == Call || emulated) && |t2.stack| == |t.stack| then CallPush(p, t2, b, emulated, from, passed, sp) else t2
  }

  function Setup(p: Program, t: Tracer, b: Block): (t': Tracer)
    requires Valid(t) && Fits(t, b)
    ensures Valid(t') && |t'.cost| == |t.cost|
  {
    var t0 := Count(t, b.delta);
    if b.kind == Return && !Unmatched(t0, b) then
      if t0.stack == [] then Underflow(p, t0, b)
      else Unwind(t0, b.sp, ReturnPops(t0.stack, b.sp, b.addr))
    else if PopsOnJump(t0, b) then
      var e := Top(t0.stack);
      Enter(p, Pop(t0), b, true, e.jcc.value.from, e.jcc.value.jmp, e.sp)
    else
      Enter(p, t0, b, Emulated(t0, b), b.last, b.passed, b.sp)
  }

  // ----- order

  lemma UnwindOrdered(t: Tracer, sp: nat, minpops: int)
    requires Valid(t) && Ordered(t.stack)
    ensures var s := Unwind(t, sp, minpops).stack; Ordered(s) && (s == [] || Top(s).sp >= sp)
  {
    UnwindExact(t, sp, minpops);
    UnwindStops(t, sp, minpops);
    PrefixOrdered(t.stack, |t.stack| - Gone(t.stack, sp, minpops));
  }

  lemma {:induction false} UnwindStops(t: Tracer, sp: nat, minpops: int)
    requires Valid(t)
    ensures var s := Unwind(t, sp, minpops).stack; s == [] || Top(s).sp >= sp
    decreases |t.stack|
  {
    if t.stack != [] && (Top(t.stack).sp < sp || (Top(t.stack).sp == sp && minpops > 0)) {
      UnwindStops(Pop(t), sp, minpops - 1);
    }
  }

  lemma PushOrdered(stack: seq<Entry>, e: Entry)
    requires Ordered(stack) && (stack == [] || e.sp <= Top(stack).sp)
    ensures Ordered(stack + [e])
  {
  }

  lemma EnterOrdered(p: Program, t: Tracer, b: Block, emulated: bool, from: nat, passed: nat, sp: nat)
    requires Valid(t) && Ordered(t.stack)
    ensures Ordered(Enter(p, t, b, emulated, from, passed, sp).stack)
  {
    var t2 := Unwind(t, sp, 0);
    UnwindOrdered(t, sp, 0);
    var t' := Enter(p, t, b, emulated, from, passed, sp);
    if |t'.stack| > |t2.stack| {
      PushOrdered(t2.stack, Top(t'.stack));
    }
  }

  /** Every step keeps the recorded stack pointers in order. */
  lemma SetupOrdered(p: Program, t: Tracer, b: Block)
    requires Valid(t) && Fits(t, b) && Ordered(t.stack)
    ensures Ordered(Setup(p, t, b).stack)
  {
    var t0 := Count(t, b.delta);
    if b.kind == Return && !Unmatched(t0, b) {
      if t0.stack != [] {
        UnwindOrdered(t0, b.sp, ReturnPops(t0.stack, b.sp, b.addr));
      }
    } else if PopsOnJump(t0, b) {
      var e := Top(t0.stack);
      PrefixOrdered(t0.stack, |t0.stack| - 1);
      EnterOrdered(p, Pop(t0), b, true, e.jcc.value.from, e.jcc.value.jmp, e.sp);
    } else {
      EnterOrdered(p, t0, b, Emulated(t0, b), b.last, b.passed, b.sp);
    }
  }

  /** What the tracer does: enter a block, or a part of a dump in the middle of the run. */
  datatype Action = Enters(block: Block) | Accounts | Prints(arc: Arc)

  ghost predicate Acts(t: Tracer, x: Action) {
    x.Enters? ==> Fits(t, x.block)
  }

  ghost function Act(p: Program, t: Tracer, x: Action): (t': Tracer)
    requires Valid(t) && Acts(t, x)
    ensures Valid(t') && |t'.cost| == |t.cost|
  {
    match x
    case Enters(b) => Setup(p, t, b)
    case Accounts => Account(t, |t.stack|)
    case Prints(a) => Print(t, a)
  }

  ghost predicate Runs(p: Program, n: nat, h: seq<Action>)
    decreases |h|, 0
  {
    h == [] || (Runs(p, n, Front(h)) && Acts(Traced(p, n, Front(h)), Last(h)))
  }

  /** The state after the actions of h, from the start. */
  ghost function Traced(p: Program, n: nat, h: seq<Action>): (t: Tracer)
    requires Runs(p, n, h)
    ensures Valid(t) && |t.cost| == n
    decreases |h|, 1
  {
    if h == [] then Start(n) else Act(p, Traced(p, n, Front(h)), Last(h))
  }

  lemma {:induction false} AccountKeepsOrder(t: Tracer, k: nat)
    requires Valid(t) && k <= |t.stack| && Ordered(t.stack)
    ensures Ordered(Account(t, k).stack)
  {
    if k > 0 {
      AccountKeepsOrder(t, k - 1);
    }
  }

  /** Shadow-stack order holds after every run of blocks and dumps. */
  lemma {:induction false} StackIsOrdered(p: Program, n: nat, h: seq<Action>)
    requires Runs(p, n, h)
    ensures Ordered(Traced(p, n, h).stack)
    decreases |h|
  {
    if h != [] {
      StackIsOrdered(p, n, Front(h));
      var t := Traced(p, n, Front(h));
      match Last(h)
      case Enters(b) => SetupOrdered(p, t, b);
      case Accounts => AccountKeepsOrder(t, |t.stack|);
      case Prints(_) =>
    }
  }

  /** A return at the stack pointer of the top frame leaves exactly the frames down to the nearest one
      that expects to return to addr, all of them recorded at that stack pointer. */
  lemma {:induction false} MatchingFrame(stack: seq<Entry>, sp: nat, addr: nat)
    requires stack != [] && Top(stack).sp == sp && Matching(stack, sp, addr) > 0
    ensures var k := |stack| - Matching(stack, sp, addr);
            && stack[k].retAddr == addr
            && (forall j :: k < j < |stack| ==> stack[j].retAddr != addr)
            && (forall j :: k <= j < |stack| ==> stack[j].sp == sp)
  {
    if Top(stack).retAddr != addr {
      MatchingFrame(stack[..|stack| - 1], sp, addr);
    }
  }

  lemma {:induction false} AtSpAtLeast(stack: seq<Entry>, sp: nat, k: nat)
    requires k <= |stack| && forall j :: k <= j < |stack| ==> stack[j].sp == sp
    ensures AtSp(stack, sp) >= |stack| - k
  {
    if k < |stack| {
      AtSpAtLeast(Front(stack), sp, k);
    }
  }

  lemma ReturnLeavesMatchingFrame(p: Program, t: Tracer, b: Block)
    requires Valid(t) && Fits(t, b) && Ordered(t.stack)
    requires b.kind == Return && t.stack != [] && Top(t.stack).sp == b.sp && Matching(t.stack, b.sp, b.addr) > 0
    ensures var k := |t.stack| - Matching(t.stack, b.sp, b.addr);
            && Setup(p, t, b).stack == t.stack[..k]
            && t.stack[k].retAddr == b.addr
            && (forall j :: k < j < |t.stack| ==> t.stack[j].retAddr != b.addr)
  {
    var t0 := Count(t, b.delta);
    var k := |t.stack| - Matching(t.stack, b.sp, b.addr);
    MatchingFrame(t.stack, b.sp, b.addr);
    AtSpAtLeast(t.stack, b.sp, k);
    Counts(t.stack, b.sp);
    UnwindExact(t0, b.sp, Matching(t.stack, b.sp, b.addr));
  }

  // ----- cost

  lemma {:induction false} UnwindBalance(t: Tracer, sp: nat, minpops: int, a: Arc, i: nat)
    requires Valid(t) && i < |t.cost|
    ensures Balance(Unwind(t, sp, minpops), a, i) == Balance(t, a, i)
    decreases |t.stack|
  {
    if t.stack != [] && (Top(t.stack).sp < sp || (Top(t.stack).sp == sp && minpops > 0)) {
      PopBalance(t, a, i);
      UnwindBalance(Pop(t), sp, minpops - 1, a, i);
    }
  }

  lemma CallPushBalance(p: Program, t: Tracer, b: Block, emulated: bool, from: nat, passed: nat, sp: nat, a: Arc, i: nat)
    requires Valid(t) && i < |t.cost|
    ensures Balance(CallPush(p, t, b, emulated, from, passed, sp), a, i) == Balance(t, a, i)
  {
    hide Balance, PushAt;
    var sp' := if emulated && t.stack != [] then Top(t.stack).sp else sp;
    var from' := if !b.skip && t.nonskipped.Some? then t.nonskipped.value else from;
    var passed' := if !b.skip && t.nonskipped.Some? then p.lastJump(from') else passed;
    PushBalance(t, Arc(from', passed', b.to), b.skip, sp', p.retOf(from', passed'), t.cost, a, i);
  }

  lemma EnterBalance(p: Program, t: Tracer, b: Block, emulated: bool, from: nat, passed: nat, sp: nat, a: Arc, i: nat)
    requires Valid(t) && i < |t.cost|
    ensures Balance(Enter(p, t, b, emulated, from, passed, sp), a, i) == Balance(t, a, i)
  {
    hide Balance, CallPush, Unwind;
    UnwindBalance(t, sp, 0, a, i);
    CallPushBalance(p, Unwind(t, sp, 0), b, emulated, from, passed, sp, a, i);
  }

  lemma NoSkipBalance(t: Tracer, a: Arc, i: nat)
    requires Valid(t) && i < |t.cost|
    ensures Balance(t.(nonskipped := None), a, i) == Balance(t, a, i)
  {
  }

  lemma UnderflowBalance(p: Program, t: Tracer, b: Block, a: Arc, i: nat)
    requires Valid(t) && AtMost(b.since, t.cost) && i < |t.cost|
    ensures Balance(Underflow(p, t, b), a, i)
         == Balance(t, a, i) + if a == Arc(b.source, 0, b.last) then Ahead(t.cost, b.since, i) else 0
  {
    hide Balance, PushAt, Pop;
    var t1 := PushAt(t.(nonskipped := None), Arc(b.source, 0, b.last), false, TOP_ADDRESS, p.retOf(b.source, 0), b.since);
    NoSkipBalance(t, a, i);
    PushBalance(t.(nonskipped := None), Arc(b.source, 0, b.last), false, TOP_ADDRESS, p.retOf(b.source, 0), b.since, a, i);
    PushNotEmpty(t.(nonskipped := None), Arc(b.source, 0, b.last), TOP_ADDRESS, p.retOf(b.source, 0), b.since);
    PopBalance(t1, a, i);
  }

  lemma PushNotEmpty(t: Tracer, arc: Arc, sp: nat, retAddr: nat, since: Cost)
    requires Valid(t) && AtMost(since, t.cost)
    ensures PushAt(t, arc, false, sp, retAddr, since).stack != [] && PushAt(t, arc, false, sp, retAddr, since).cost == t.cost
  {
  }

  /** What a block adds to the cost of event i that an arc has accrued: what it counted, once for every
      activation, or the assumed cost of a call that was never seen. */
  ghost function BlockGain(t: Tracer, b: Block, a: Arc, i: nat): int
    requires Fits(t, b) && i < |t.cost|
  {
    b.delta[i] * Active(t.stack, a)
    + if b.kind == Return && t.stack == [] && a == Arc(b.source, 0, b.last) then t.cost[i] + b.delta[i] - b.since[i] else 0
  }

  lemma SetupBalance(p: Program, t: Tracer, b: Block, a: Arc, i: nat)
    requires Valid(t) && Fits(t, b) && i < |t.cost|
    ensures Balance(Setup(p, t, b), a, i) == Balance(t, a, i) + BlockGain(t, b, a, i)
  {
    hide Balance, Enter, Underflow, Unwind, Pop;
    var t0 := Count(t, b.delta);
    CountBalance(t, b.delta, a, i);
    if b.kind == Return && !Unmatched(t0, b) {
      if t0.stack == [] {
        UnderflowBalance(p, t0, b, a, i);
      } else {
        UnwindBalance(t0, b.sp, ReturnPops(t0.stack, b.sp, b.addr), a, i);
      }
    } else if PopsOnJump(t0, b) {
      var e := Top(t0.stack);
      PopBalance(t0, a, i);
      EnterBalance(p, Pop(t0), b, true, e.jcc.value.from, e.jcc.value.jmp, e.sp, a, i);
    } else {
      EnterBalance(p, t0, b, Emulated(t0, b), b.last, b.passed, b.sp, a, i);
    }
  }

  ghost function TotalGain(p: Program, n: nat, h: seq<Action>, a: Arc, i: nat): int
    requires Runs(p, n, h) && i < n
    decreases |h|
  {
    if h == [] then 0
    else TotalGain(p, n, Front(h), a, i)
         + if Last(h).Enters? then BlockGain(Traced(p, n, Front(h)), Last(h).block, a, i) else 0
  }

  lemma StartBalance(n: nat, a: Arc, i: nat)
    requires i < n
    ensures Balance(Start(n), a, i) == 0
  {
  }

  /** Inclusive cost is conserved over every run of blocks and dumps, whatever calls, returns, unwinding
      and emulated calls setup_bbcc makes of the blocks. */
  lemma {:induction false} RunConservesCost(p: Program, n: nat, h: seq<Action>, a: Arc, i: nat)
    requires Runs(p, n, h) && i < n
    ensures Balance(Traced(p, n, h), a, i) == TotalGain(p, n, h, a, i)
    decreases |h|
  {
    hide Balance, Setup, Account, Print, BlockGain;
    if h == [] {
      StartBalance(n, a, i);
    } else {
      RunConservesCost(p, n, Front(h), a, i);
      var t := Traced(p, n, Front(h));
      match Last(h)
      case Enters(b) => SetupBalance(p, t, b, a, i);
      case Accounts => AccountBalance(t, |t.stack|, a, i);
      case Prints(arc) => PrintBalance(t, arc, a, i);
    }
  }

  /** And a dump after any such run is complete: what is stored and printed for an arc is all it gained. */
  lemma RunDumpIsComplete(p: Program, n: nat, h: seq<Action>, a: Arc, i: nat)
    requires Runs(p, n, h) && i < n
    ensures Runs(p, n, h + [Accounts])
    ensures var t := Traced(p, n, h + [Accounts]);
            Of(t.stored, a, n)[i] + Of(t.printed, a, n)[i] == TotalGain(p, n, h, a, i)
  {
    hide Account, Setup, Print, Of, TotalGain;
    var h' := h + [Accounts];
    assert Front(h') == h && Last(h') == Accounts;
    RunConservesCost(p, n, h, a, i);
    AccountedIsComplete(Traced(p, n, h), a, i);
  }
}
