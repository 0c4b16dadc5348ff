/** callgrind's shadow call stack on values (callstack.c, bbcc.c, part of events.c and dump.c): call
    entries, inclusive costs of call arcs, and the step made at the start of every basic block.
    Signal handlers are not modelled. */
module CallModel {
  import opened Options
  import opened Lru

  /** A vector of event counts, one per event of the full event set. */
  type Cost = seq<nat>

  /** A call arc: calling block, jump in it, called block. */
  datatype Arc = Arc(from: nat, jmp: nat, to: nat)

  /** One frame; a call of a skipped function has no arc, and its enter cost is not used. */
  datatype Entry = Entry(jcc: Option<Arc>, sp: nat, retAddr: nat, enter: Cost, nonskipped: Option<nat>)

  datatype Tracer = Tracer(
    cost: Cost,                   // current_state.cost
    stack: seq<Entry>,            // bottom first
    nonskipped: Option<nat>,      // the block that entered skipped functions
    stored: map<Arc, Cost>,       // jcc->cost
    retCounter: map<nat, nat>,    // ret_counter of the calling block
    printed: map<Arc, Cost>)      // what dumps have written for the arc so far

  function Zeros(n: nat): (z: Cost)
    ensures |z| == n && forall i :: 0 <= i < n ==> z[i] == 0
  {
    seq(n, _ => 0)
  }

  function Plus(x: Cost, y: Cost): (z: Cost)
    requires |x| == |y|
    ensures |z| == |x| && forall i :: 0 <= i < |z| ==> z[i] == x[i] + y[i]
  {
    seq(|x|, i requires 0 <= i < |x| => x[i] + y[i])
  }

  predicate AtMost(x: Cost, y: Cost) {
    |x| == |y| && forall i :: 0 <= i < |x| ==> x[i] <= y[i]
  }

  /** add_diff_cost: dst grows by what new is ahead of old. */
  function AddDiff(dst: Cost, old_: Cost, new_: Cost): (z: Cost)
    requires |dst| == |new_| && AtMost(old_, new_)
    ensures |z| == |dst| && forall i :: 0 <= i < |z| ==> z[i] == dst[i] + (new_[i] - old_[i])
  {
    seq(|dst|, i requires 0 <= i < |dst| => dst[i] + (new_[i] - old_[i]))
  }

  function Of(m: map<Arc, Cost>, a: Arc, n: nat): Cost {
    if a in m then m[a] else Zeros(n)
  }

  ghost predicate Sized(m: map<Arc, Cost>, n: nat) {
    forall a :: a in m ==> |m[a]| == n
  }

  /** Every active arc was entered at a cost that has been reached. */
  ghost predicate Valid(t: Tracer) {
    && Sized(t.stored, |t.cost|) && Sized(t.printed, |t.cost|)
    && forall k :: 0 <= k < |t.stack| && t.stack[k].jcc.Some? ==> AtMost(t.stack[k].enter, t.cost)
  }

  // ----- single operations

  function Count(t: Tracer, delta: Cost): (t': Tracer)
    requires Valid(t) && |delta| == |t.cost|
    ensures Valid(t')
  {
    t.(cost := Plus(t.cost, delta))
  }

  /** push_call_stack, entered at the current cost. */
  function Push(t: Tracer, a: Arc, skip: bool, sp: nat, retAddr: nat): (t': Tracer)
    requires Valid(t)
    ensures Valid(t')
  {
    PushAt(t, a, skip, sp, retAddr, t.cost)
  }

  function PushAt(t: Tracer, a: Arc, skip: bool, sp: nat, retAddr: nat, since: Cost): (t': Tracer)
    requires Valid(t) && AtMost(since, t.cost)
    ensures Valid(t')
  {
    var e := Entry(if skip then None else Some(a), sp, retAddr, since, t.nonskipped);
    t.(stack := t.stack + [e],
       nonskipped := if !skip then None else if t.nonskipped.None? then Some(a.from) else t.nonskipped)
  }

  /** pop_call_stack: the cost since the call was entered goes to its arc, and the call is counted as
      a return of its caller if there was any. */
  function Pop(t: Tracer): (t': Tracer)
    requires Valid(t) && t.stack != []
    ensures Valid(t') && t'.stack == t.stack[..|t.stack| - 1] && t'.cost == t.cost
  {
    var e := t.stack[|t.stack| - 1];
    var t1 := t.(stack := t.stack[..|t.stack| - 1], nonskipped := e.nonskipped);
    match e.jcc
    case None => t1
    case Some(a) =>
      t1.(stored := t.stored[a := AddDiff(Of(t.stored, a, |t.cost|), e.enter, t.cost)],
          retCounter := if e.enter == t.cost then t.retCounter
                     else t.retCounter[a.from := (if a.from in t.retCounter then t.retCounter[a.from] else 0) + 1])
  }

  /** cs_addCount on one frame: its pending cost moves to the arc. */
  function AccountEntry(t: Tracer, k: nat): (t': Tracer)
    requires Valid(t) && k < |t.stack|
    ensures Valid(t') && |t'.stack| == |t.stack| && t'.cost == t.cost
  {
    var e := t.stack[k];
    match e.jcc
    case None => t
    case Some(a) =>
      t.(stored := t.stored[a := AddDiff(Of(t.stored, a, |t.cost|), e.enter, t.cost)],
         stack := t.stack[k := e.(enter := t.cost)])
  }

  /** The first k frames. */
  function Account(t: Tracer, k: nat): (t': Tracer)
    requires Valid(t) && k <= |t.stack|
    ensures Valid(t') && |t'.stack| == |t.stack| && t'.cost == t.cost
  {
    if k == 0 then t else AccountEntry(Account(t, k - 1), k - 1)
  }

  /** fprint_jcc: a cost that is not zero is written to the dump and reset. */
  function Print(t: Tracer, a: Arc): (t': Tracer)
    requires Valid(t)
    ensures Valid(t')
  {
    var n := |t.cost|;
    if Of(t.stored, a, n) == Zeros(n) then t
    else t.(stored := t.stored[a := Zeros(n)], printed := t.printed[a := Plus(Of(t.printed, a, n), t.stored[a])])
  }

  // ----- runs

  datatype Op =
    | DoCount(delta: Cost)
    | DoPush(arc: Arc, skip: bool, sp: nat, retAddr: nat)
    | DoPushSince(arc: Arc, sp: nat, retAddr: nat, since: Cost)
    | DoPop
    | DoAccount
    | DoPrint(arc: Arc)

  ghost predicate Possible(t: Tracer, op: Op) {
    match op
    case DoCount(delta) => |delta| == |t.cost|
    case DoPushSince(_, _, _, since) => AtMost(since, t.cost)
    case DoPop => t.stack != []
    case _ => true
  }

  ghost function Step(t: Tracer, op: Op): (t': Tracer)
    requires Valid(t) && Possible(t, op)
    ensures Valid(t') && |t'.cost| == |t.cost|
  {
    match op
    case DoCount(delta) => Count(t, delta)
    case DoPush(a, skip, sp, retAddr) => Push(t, a, skip, sp, retAddr)
    case DoPushSince(a, sp, retAddr, since) => PushAt(t, a, false, sp, retAddr, since)
    case DoPop => Pop(t)
    case DoAccount => Account(t, |t.stack|)
    case DoPrint(a) => Print(t, a)
  }

  ghost function Start(n: nat): (t: Tracer)
    ensures Valid(t)
  {
    Tracer(Zeros(n), [], None, map[], map[], map[])
  }

  ghost predicate AllPossible(n: nat, h: seq<Op>)
    decreases |h|, 0
  {
    h == [] || (AllPossible(n, Front(h)) && Possible(Run(n, Front(h)), Last(h)))
  }

  ghost function Run(n: nat, h: seq<Op>): (t: Tracer)
    requires AllPossible(n, h)
    ensures Valid(t) && |t.cost| == n
    decreases |h|, 1
  {
    if h == [] then Start(n) else Step(Run(n, Front(h)), Last(h))
  }

  // ----- conservation of inclusive cost

  ghost function Active(stack: seq<Entry>, a: Arc): nat {
    if stack == [] then 0 else Active(Front(stack), a) + if Last(stack).jcc == Some(a) then 1 else 0
  }

  function Ahead(new_: Cost, old_: Cost, i: nat): int
    requires i < |new_| == |old_|
  {
    new_[i] as int - old_[i] as int
  }

  /** The cost of event i accrued by the active frames of a and not yet in its store. */
  ghost function Pending(stack: seq<Entry>, cost: Cost, a: Arc, i: nat): int
    requires i < |cost| && forall k :: 0 <= k < |stack| && stack[k].jcc.Some? ==> |stack[k].enter| == |cost|
  {
    if stack == [] then 0
    else Pending(Front(stack), cost, a, i) + if Last(stack).jcc == Some(a) then Ahead(cost, Last(stack).enter, i) else 0
  }

  /** What one operation adds to the cost of event i that a has accrued: events are counted once per
      activation on the stack; a call whose entry was missed is taken to have lasted since the cost
      given for it. */
  ghost function Gained(t: Tracer, op: Op, a: Arc, i: nat): int
    requires Possible(t, op) && i < |t.cost|
  {
    match op
    case DoCount(delta) => delta[i] * Active(t.stack, a)
    case DoPushSince(arc, _, _, since) => if arc != a then 0 else t.cost[i] - since[i]
    case _ => 0
  }

  ghost function Accrued(n: nat, h: seq<Op>, a: Arc, i: nat): int
    requires AllPossible(n, h) && i < n
    decreases |h|
  {
    if h == [] then 0 else Accrued(n, Front(h), a, i) + Gained(Run(n, Front(h)), Last(h), a, i)
  }

  ghost function Balance(t: Tracer, a: Arc, i: nat): int
    requires Valid(t) && i < |t.cost|
  {
    Of(t.stored, a, |t.cost|)[i] + Pending(t.stack, t.cost, a, i) + Of(t.printed, a, |t.cost|)[i]
  }

  lemma {:induction false} PendingGrows(stack: seq<Entry>, cost: Cost, delta: Cost, a: Arc, i: nat)
    requires i < |cost| == |delta|
    requires forall k :: 0 <= k < |stack| && stack[k].jcc.Some? ==> |stack[k].enter| == |cost|
    ensures Pending(stack, Plus(cost, delta), a, i) == Pending(stack, cost, a, i) + delta[i] * Active(stack, a)
  {
    if stack != [] {
      PendingGrows(Front(stack), cost, delta, a, i);
      Distribute(delta[i], Active(Front(stack), a));
    }
  }

  lemma Distribute(x: int, y: int)
    ensures x * (y + 1) == x * y + x && x * (y + 0) == x * y
  {
  }

  lemma {:induction false} PendingUpdate(stack: seq<Entry>, cost: Cost, k: nat, a: Arc, i: nat)
    requires i < |cost| && k < |stack| && stack[k].jcc.Some?
    requires forall k :: 0 <= k < |stack| && stack[k].jcc.Some? ==> |stack[k].enter| == |cost|
    ensures Pending(stack[k := stack[k].(enter := cost)], cost, a, i)
         == Pending(stack, cost, a, i) - if stack[k].jcc == Some(a) then Ahead(cost, stack[k].enter, i) else 0
  {
    var s' := stack[k := stack[k].(enter := cost)];
    if k == |stack| - 1 {
      assert Front(s') == Front(stack);
    } else {
      assert Front(s') == Front(stack)[k := stack[k].(enter := cost)];
      PendingUpdate(Front(stack), cost, k, a, i);
    }
  }

  lemma AccountEntryBalance(t: Tracer, k: nat, a: Arc, i: nat)
    requires Valid(t) && k < |t.stack| && i < |t.cost|
    ensures Balance(AccountEntry(t, k), a, i) == Balance(t, a, i)
  {
    if t.stack[k].jcc.Some? {
      PendingUpdate(t.stack, t.cost, k, a, i);
    }
  }

  lemma {:induction false} AccountBalance(t: Tracer, k: nat, a: Arc, i: nat)
    requires Valid(t) && k <= |t.stack| && i < |t.cost|
    ensures Balance(Account(t, k), a, i) == Balance(t, a, i)
  {
    hide Balance, AccountEntry;
    if k > 0 {
      AccountBalance(t, k - 1, a, i);
      AccountEntryBalance(Account(t, k - 1), k - 1, a, i);
    }
  }

  lemma PopBalance(t: Tracer, a: Arc, i: nat)
    requires Valid(t) && t.stack != [] && i < |t.cost|
    ensures Balance(Pop(t), a, i) == Balance(t, a, i)
  {
  }

  lemma CountBalance(t: Tracer, delta: Cost, a: Arc, i: nat)
    requires Valid(t) && |delta| == |t.cost| && i < |t.cost|
    ensures Balance(Count(t, delta), a, i) == Balance(t, a, i) + delta[i] * Active(t.stack, a)
  {
    PendingGrows(t.stack, t.cost, delta, a, i);
  }

  lemma PushBalance(t: Tracer, arc: Arc, skip: bool, sp: nat, retAddr: nat, since: Cost, a: Arc, i: nat)
    requires Valid(t) && AtMost(since, t.cost) && i < |t.cost|
    ensures Balance(PushAt(t, arc, skip, sp, retAddr, since), a, i)
         == Balance(t, a, i) + if skip || arc != a then 0 else t.cost[i] - since[i]
  {
    assert Front(PushAt(t, arc, skip, sp, retAddr, since).stack) == t.stack;
  }

  lemma PrintBalance(t: Tracer, arc: Arc, a: Arc, i: nat)
    requires Valid(t) && i < |t.cost|
    ensures Balance(Print(t, arc), a, i) == Balance(t, a, i)
  {
    hide Pending;
  }

  /** What is printed leaves the store: the arc starts again from nothing, and no other arc changes. */
  lemma PrintMoves(t: Tracer, arc: Arc, a: Arc, i: nat)
    requires Valid(t) && i < |t.cost|
    ensures var t', n := Print(t, arc), |t.cost|;
            && Of(t'.stored, a, n)[i] == (if a == arc then 0 else Of(t.stored, a, n)[i])
            && Of(t'.printed, a, n)[i] == Of(t.printed, a, n)[i] + (if a == arc then Of(t.stored, a, n)[i] else 0)
            && t'.stack == t.stack && t'.cost == t.cost && t'.retCounter == t.retCounter && t'.nonskipped == t.nonskipped
  {
  }

  /** Accounting starts the cost of every active call afresh and changes nothing else but what is stored. */
  lemma {:induction false} AccountRestarts(t: Tracer, k: nat)
    requires Valid(t) && k <= |t.stack|
    ensures var t' := Account(t, k);
            && t'.retCounter == t.retCounter && t'.nonskipped == t.nonskipped && t'.printed == t.printed
            && forall j :: 0 <= j < |t.stack| ==>
                 t'.stack[j] == if j < k && t.stack[j].jcc.Some? then t.stack[j].(enter := t.cost) else t.stack[j]
  {
    if k > 0 {
      AccountRestarts(t, k - 1);
    }
  }

  lemma StepBalance(t: Tracer, op: Op, a: Arc, i: nat)
    requires Valid(t) && Possible(t, op) && i < |t.cost|
    ensures Balance(Step(t, op), a, i) == Balance(t, a, i) + Gained(t, op, a, i)
  {
    hide Balance, Count, PushAt, Pop, Account, Print;
    match op
    case DoCount(delta) => CountBalance(t, delta, a, i);
    case DoPush(arc, skip, sp, retAddr) => PushBalance(t, arc, skip, sp, retAddr, t.cost, a, i);
    case DoPushSince(arc, sp, retAddr, since) => PushBalance(t, arc, false, sp, retAddr, since, a, i);
    case DoPop => PopBalance(t, a, i);
    case DoAccount => AccountBalance(t, |t.stack|, a, i);
    case DoPrint(arc) => PrintBalance(t, arc, a, i);
  }

  /** Conservation: over any interleaving of counting, calls, returns, accounting and printing, what an
      arc has stored, what its active frames have pending and what was printed for it is exactly what
      was counted while its activations were on the stack. */
  lemma {:induction false} CostConserved(n: nat, h: seq<Op>, a: Arc, i: nat)
    requires AllPossible(n, h) && i < n
    ensures Balance(Run(n, h), a, i) == Accrued(n, h, a, i)
  {
    if h != [] {
      CostConserved(n, Front(h), a, i);
      StepBalance(Run(n, Front(h)), Last(h), a, i);
    }
  }

  lemma {:induction false} NothingPending(stack: seq<Entry>, cost: Cost, a: Arc, i: nat)
    requires i < |cost| && forall k :: 0 <= k < |stack| && stack[k].jcc.Some? ==> stack[k].enter == cost
    ensures Pending(stack, cost, a, i) == 0
  {
    if stack != [] {
      NothingPending(Front(stack), cost, a, i);
    }
  }

  lemma {:induction false} AccountedUpTo(t: Tracer, k: nat)
    requires Valid(t) && k <= |t.stack|
    ensures forall j :: 0 <= j < k && Account(t, k).stack[j].jcc.Some? ==> Account(t, k).stack[j].enter == t.cost
  {
    if k > 0 {
      AccountedUpTo(t, k - 1);
    }
  }

  /** Once the active frames are accounted for, stored and printed cost together are the whole balance. */
  lemma AccountedIsComplete(t: Tracer, a: Arc, i: nat)
    requires Valid(t) && i < |t.cost|
    ensures var t' := Account(t, |t.stack|);
            Of(t'.stored, a, |t.cost|)[i] + Of(t'.printed, a, |t.cost|)[i] == Balance(t, a, i)
  {
    hide Account, Pending, Of;
    AccountBalance(t, |t.stack|, a, i);
    AccountedUpTo(t, |t.stack|);
    var t' := Account(t, |t.stack|);
    NothingPending(t'.stack, t'.cost, a, i);
  }

  /** So a dump in the middle of a run is complete: stored and printed cost together are all the cost the
      arc has accrued. */
  lemma DumpIsComplete(n: nat, h: seq<Op>, a: Arc, i: nat)
    requires AllPossible(n, h) && i < n
    ensures AllPossible(n, h + [DoAccount])
    ensures var t := Run(n, h + [DoAccount]);
            Of(t.stored, a, n)[i] + Of(t.printed, a, n)[i] == Accrued(n, h, a, i)
  {
    var h' := h + [DoAccount];
    assert Front(h') == h && Last(h') == DoAccount;
    CostConserved(n, h, a, i);
    AccountedIsComplete(Run(n, h), a, i);
  }
}
