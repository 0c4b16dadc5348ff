/** The shadow call stack of the current thread in place (callstack.c, bbcc.c, dump.c): the entry array
    grows on demand, and every operation is the one on values in CallModel and CallSetup. */
module CallStack {
  import opened Options
  import opened CallModel
  import opened CallSetup

  const INITIAL_ENTRIES: nat := 500

  const UNUSED: Entry := Entry(None, 0, 0, [], None)

  // ----- the size of the stack

  /** size, doubled as long as it is smaller than i. */
  function Grown(size: nat, i: nat): (r: nat)
    requires size > 0
    ensures r >= size && r >= i
    decreases if i > size then i - size else 0
  {
    if i > size then Grown(size * 2, i) else size
  }

  function SizeFor(size: nat, i: nat): (r: nat)
    requires size > 0
    ensures r >= size && r >= i && (i <= size ==> r > i)
  {
    if i < size then size else Grown(size * 2, i)
  }

  /** size, doubled k times. */
  function Doubled(size: nat, k: nat): (r: nat)
    ensures r >= size
    decreases k
  {
    if k == 0 then size else Doubled(size * 2, k - 1)
  }

  lemma {:induction false} GrownIsExact(size: nat, i: nat)
    requires size > 0
    ensures Grown(size, i) == i <==> exists k: nat :: i == Doubled(size, k)
    decreases if i > size then i - size else 0
  {
    if i > size {
      GrownIsExact(size * 2, i);
      if Grown(size, i) == i {
        var k: nat :| i == Doubled(size * 2, k);
        assert i == Doubled(size, k + 1);
      } else {
        forall k: nat
          ensures i != Doubled(size, k)
        {
          assert k > 0 ==> Doubled(size, k) == Doubled(size * 2, k - 1);
        }
      }
    } else {
      assert Doubled(size, 0) == size;
    }
  }

  /** There is no room for entry i exactly when i is the size doubled, once or more. */
  lemma NoRoomIff(size: nat, i: nat)
    requires size > 0
    ensures SizeFor(size, i) <= i <==> exists k: nat :: k > 0 && i == Doubled(size, k)
  {
    GrownIsExact(size * 2, i);
    if SizeFor(size, i) <= i {
      var k: nat :| i == Doubled(size * 2, k);
      assert i == Doubled(size, k + 1);
    }
    if k: nat :| k > 0 && i == Doubled(size, k) {
      var k': nat := k - 1;
      assert i == Doubled(size * 2, k');
      assert Grown(size * 2, i) == i;
    }
  }

  /** For example, entry 1000 of the initial 500. */
  lemma NoRoomExample()
    ensures SizeFor(INITIAL_ENTRIES, 1000) == 1000
  {
  }

  class CallStack {
    var entry: array<Entry>
    var sp: nat
    var cost: Cost
    var nonskipped: Option<nat>
    var stored: map<Arc, Cost>
    var retCounter: map<nat, nat>
    var printed: map<Arc, Cost>

    ghost function T(): Tracer
      requires sp <= entry.Length
      reads this, entry
    {
      Tracer(cost, entry[..sp], nonskipped, stored, retCounter, printed)
    }

    /** One entry above the top is always allocated. */
    ghost predicate Fine()
      reads this, entry
    {
      sp < entry.Length && Valid(T())
    }

    constructor (n: nat)
      ensures Fine() && T() == Start(n) && fresh(entry)
    {
      entry := new Entry[INITIAL_ENTRIES](_ => UNUSED);
      sp := 0;
      cost := Zeros(n);
      nonskipped := None;
      stored, retCounter, printed := map[], map[], map[];
    }

    /** Doubling makes room for entry i as long as it is at most one past the end; further on, i can
        end up just past the end of the doubled array. */
    method EnsureStackSize(i: nat)
      requires Fine()
      modifies this`entry
      ensures Fine() && T() == old(T())
      ensures entry.Length == SizeFor(old(entry.Length), i)
      ensures i <= entry.Length && (i <= old(entry.Length) ==> i < entry.Length)
      ensures entry == old(entry) || fresh(entry)
    {
      if i < entry.Length {
        return;
      }
      var size := entry.Length * 2;
      while i > size
        invariant size > entry.Length && Grown(size, i) == Grown(entry.Length * 2, i)
      {
        size := size * 2;
      }
      var was := entry;
      var grown := new Entry[size](k requires 0 <= k < size reads was => if k < was.Length then was[k] else UNUSED);
      assert grown[..sp] == entry[..sp];
      entry := grown;
    }

    /** push_call_stack. */
    method PushCallStack(p: Program, from: nat, jmp: nat, to: nat, sp': nat, skip: bool)
      requires Fine()
      modifies this, entry
      ensures Fine() && (entry == old(entry) || fresh(entry))
      ensures T() == Push(old(T()), Arc(from, jmp, to), skip, sp', p.retOf(from, jmp))
    {
      EnsureStackSize(sp + 1);
      var jcc := if skip then None else Some(Arc(from, jmp, to));
      entry[sp] := Entry(jcc, sp', p.retOf(from, jmp), cost, nonskipped);
      sp := sp + 1;
      if !skip {
        nonskipped := None;
      } else if nonskipped.None? {
        nonskipped := Some(from);
      }
      assert entry[..sp] == old(T()).stack + [entry[sp - 1]];
    }

    /** pop_call_stack. */
    method PopCallStack()
      requires Fine() && sp > 0
      modifies this
      ensures Fine() && entry == old(entry)
      ensures T() == Pop(old(T()))
    {
      var lower := entry[sp - 1];
      assert lower == T().stack[sp - 1];
      nonskipped := lower.nonskipped;
      if lower.jcc.Some? {
        var a := lower.jcc.value;
        stored := stored[a := AddDiff(Of(stored, a, |cost|), lower.enter, cost)];
        if lower.enter != cost {
          retCounter := retCounter[a.from := (if a.from in retCounter then retCounter[a.from] else 0) + 1];
        }
      }
      sp := sp - 1;
      assert entry[..sp] == old(entry[..sp])[..sp];
    }

    /** unwind_call_stack: frames left behind by the stack pointer are popped and counted. */
    method UnwindCallStack(sp': nat, minpops: int) returns (count: nat)
      requires Fine()
      modifies this
      ensures Fine() && entry == old(entry)
      ensures T() == Unwind(old(T()), sp', minpops)
      ensures count == |old(T()).stack| - |T().stack|
    {
      count := 0;
      var m := minpops;
      while sp > 0
        invariant Fine() && entry == old(entry)
        invariant Unwind(T(), sp', m) == Unwind(old(T()), sp', minpops)
        invariant count == old(sp) - sp
        decreases sp
      {
        var top := entry[sp - 1];
        assert top == Top(T().stack);
        if top.sp < sp' || (top.sp == sp' && m > 0) {
          m := m - 1;
          count := count + 1;
          PopCallStack();
          continue;
        }
        break;
      }
    }

    /** cs_addCount: before a dump, the active frames hand over their pending cost. */
    method AddCount()
      requires Fine()
      modifies this, entry
      ensures Fine() && entry == old(entry)
      ensures T() == Account(old(T()), |old(T()).stack|)
    {
      for i := 0 to sp
        invariant Fine() && entry == old(entry) && sp == old(sp) && cost == old(cost)
        invariant T() == Account(old(T()), i)
      {
        AddCountOf(i);
      }
    }

    method AddCountOf(i: nat)
      requires Fine() && i < sp
      modifies this, entry
      ensures Fine() && entry == old(entry) && sp == old(sp) && cost == old(cost)
      ensures T() == AccountEntry(old(T()), i)
    {
      var e := entry[i];
      assert e == T().stack[i];
      if e.jcc.Some? {
        var a := e.jcc.value;
        stored := stored[a := AddDiff(Of(stored, a, |cost|), e.enter, cost)];
        entry[i] := e.(enter := cost);
        assert entry[..sp] == old(entry[..sp])[i := entry[i]];
      }
    }

    /** fprint_jcc. */
    method PrintJcc(a: Arc)
      requires Fine()
      modifies this
      ensures Fine() && entry == old(entry)
      ensures T() == Print(old(T()), a)
    {
      var n := |cost|;
      if Of(stored, a, n) != Zeros(n) {
        printed := printed[a := Plus(Of(printed, a, n), stored[a])];
        stored := stored[a := Zeros(n)];
      }
    }

    /** The popcount loop of setup_bbcc. */
    method PopcountOnReturn(sp': nat, addr: nat) returns (count: nat)
      requires Fine() && sp > 0
      ensures count == ReturnPops(T().stack, sp', addr)
    {
      var top := sp - 1;
      count := 1;
      if sp' < entry[top].sp {
        return 0;
      }
      if entry[top].sp != sp' {
        return;
      }
      ghost var all := Matching(entry[..sp], sp', addr);
      while true
        invariant top < sp && count == sp - top
        invariant var m := Matching(entry[..top + 1], sp', addr); all == if m == 0 then 0 else m + count - 1
        decreases top
      {
        assert entry[..top + 1][top] == entry[top];
        if entry[top].retAddr == addr {
          return;
        }
        if top > 0 {
          assert entry[..top + 1][..top] == entry[..top];
          top := top - 1;
          if entry[top].sp == sp' {
            count := count + 1;
            continue;
          }
        }
        return 0;
      }
    }

    /** handleUnderflow: a call that was never seen is pushed, as if it had been entered at cost since. */
    method HandleUnderflow(p: Program, source: nat, last: nat, since: Cost)
      requires Fine() && AtMost(since, cost)
      modifies this, entry
      ensures Fine() && (entry == old(entry) || fresh(entry))
      ensures T() == PushAt(old(T()).(nonskipped := None), Arc(source, 0, last), false, TOP_ADDRESS, p.retOf(source, 0), since)
    {
      nonskipped := None;
      PushCallStack(p, source, 0, last, TOP_ADDRESS, false);
      ghost var s := T().stack;
      entry[sp - 1] := entry[sp - 1].(enter := since);
      assert entry[..sp] == s[sp - 1 := entry[sp - 1]];
    }

    /** The delayed push at the end of setup_bbcc. */
    method PushDelayed(p: Program, b: Block, emulated: bool, from: nat, passed: nat, sp': nat)
      requires Fine()
      modifies this, entry
      ensures Fine() && (entry == old(entry) || fresh(entry))
      ensures T() == CallPush(p, old(T()), b, emulated, from, passed, sp')
    {
      var at, caller, jmp := sp', from, passed;
      if emulated && sp > 0 {
        at := entry[sp - 1].sp;
        assert entry[sp - 1] == Top(T().stack);
      }
      if !b.skip && nonskipped.Some? {
        caller := nonskipped.value;
        jmp := p.lastJump(caller);
      }
      PushCallStack(p, caller, jmp, b.to, at, b.skip);
    }

    /** A return not matching the top frame is a jump. */
    method MatchReturn(b: Block) returns (kind: JumpKind, popcount: nat, withoutCall: bool)
      requires Fine()
      ensures withoutCall == Unmatched(T(), b)
      ensures kind == if withoutCall then Jump else b.kind
      ensures kind == Return && sp > 0 ==> popcount == ReturnPops(T().stack, b.sp, b.addr)
    {
      kind, popcount, withoutCall := b.kind, 1, false;
      if kind == Return && sp > 0 {
        popcount := PopcountOnReturn(b.sp, b.addr);
        if popcount == 0 {
          kind := Jump;
          withoutCall := true;
        }
      }
    }

    method LeaveFrames(p: Program, b: Block, popcount: nat)
      requires Fine() && Fits(T(), b)
      modifies this, entry
      ensures Fine() && (entry == old(entry) || fresh(entry))
      ensures T() == if old(sp) == 0 then Underflow(p, old(T()), b) else Unwind(old(T()), b.sp, popcount)
    {
      if sp == 0 {
        HandleUnderflow(p, b.source, b.last, b.since);
        PopCallStack();
      } else {
        var _ := UnwindCallStack(b.sp, popcount);
      }
    }

    method EnterFrame(p: Program, b: Block, call: bool, emulated: bool, from: nat, passed: nat, sp': nat)
      requires Fine() && (call <==> b.kind == Call || emulated)
      modifies this, entry
      ensures Fine() && (entry == old(entry) || fresh(entry))
      ensures T() == Enter(p, old(T()), b, emulated, from, passed, sp')
    {
      var unwound := UnwindCallStack(sp', 0);
      if call && unwound == 0 {
        PushDelayed(p, b, emulated, from, passed, sp');
      }
    }

    /** setup_bbcc, as far as the call stack goes. */
    method SetupBbcc(p: Program, b: Block)
      requires Fine() && Fits(T(), b)
      modifies this, entry
      ensures Fine() && (entry == old(entry) || fresh(entry))
      ensures T() == Setup(p, old(T()), b)
    {
      cost := Plus(cost, b.delta);
      ghost var t0 := T();
      assert t0 == Count(old(T()), b.delta);
      var kind, popcount, withoutCall := MatchReturn(b);
      if kind == Return {
        LeaveFrames(p, b, popcount);
        return;
      }
      var caller, passed, sp', emulated := b.last, b.passed, b.sp, false;
      if kind != Call && b.hasLast && (withoutCall || b.converts) {
        if b.popOnJump && sp > 0 {
          var top := entry[sp - 1];
          assert top == Top(t0.stack);
          if top.jcc.Some? {
            caller, sp', passed := top.jcc.value.from, top.sp, top.jcc.value.jmp;
            PopCallStack();
          }
        }
        kind := Call;
        emulated := true;
      }
      EnterFrame(p, b, kind == Call, emulated, caller, passed, sp');
    }
  }
}
