/** cg_main.c: the running state of the instrumentation, with its bounded queue of events. */
module EventQueue {
  import opened Lru
  import opened CacheModel
  import opened Hierarchy
  import opened EventModel
  import opened EventWalk

  class CgState {
    const cfg: Config
    const events: array<Event>  // N_EVENTS of them
    var eventsUsed: nat
    var sbInfoI: nat            // instruction slots used so far
    var sbOut: seq<Out>

    ghost predicate Valid()
      reads this
    {
      events.Length > 0 && eventsUsed <= events.Length
    }

    ghost function Q(): Queue
      requires Valid()
      reads this, events
    {
      Queue(events[..eventsUsed], sbOut)
    }

    constructor (cfg: Config, capacity: nat)
      requires capacity > 0
      ensures Valid() && this.cfg == cfg && events.Length == capacity && fresh(events)
      ensures Q() == Queue([], []) && sbInfoI == 0
    {
      this.cfg := cfg;
      events := new Event[capacity](_ => IrGen(Inode(0, 0, 0, 0)));
      eventsUsed, sbInfoI, sbOut := 0, 0, [];
    }

    /** The switch of flushEvents: the helper for event i and how many events it covers. */
    method Choose(i: nat) returns (c: Call, k: nat)
      requires Valid() && i < eventsUsed && Coherent(cfg, events[..eventsUsed])
      ensures (c, k) == FirstCall(cfg, events[i..eventsUsed])
    {
      var ev := events[i];
      var n := ev.inode;
      ghost var q := events[i..eventsUsed];
      assert q[0] == ev && (|q| > 1 ==> q[1] == events[i + 1]) && (|q| > 2 ==> q[2] == events[i + 2]);
      match ev
      case IrNoX(_) =>
        var two, three := i + 1 < eventsUsed, i + 2 < eventsUsed;
        if two && (events[i + 1].Dr? || events[i + 1].Dm?) {
          assert events[..eventsUsed][i + 1].inode == events[..eventsUsed][i].inode;
          return Log1IrNoX1Dr(n, events[i + 1].ea, events[i + 1].szB), 2;
        } else if two && events[i + 1].Dw? {
          assert events[..eventsUsed][i + 1].inode == events[..eventsUsed][i].inode;
          return Log1IrNoX1Dw(n, events[i + 1].ea, events[i + 1].szB), 2;
        } else if two && three && events[i + 1].IrNoX? && events[i + 2].IrNoX? {
          var n2, n3 := events[i + 1].inode, events[i + 2].inode;
          return if cfg.cacheSim then Log3IrNoX0D(n, n2, n3) else Log3Ir(n, n2, n3), 3;
        } else if two && events[i + 1].IrNoX? {
          var n2 := events[i + 1].inode;
          return if cfg.cacheSim then Log2IrNoX0D(n, n2) else Log2Ir(n, n2), 2;
        }
        return if cfg.cacheSim then Log1IrNoX0D(n) else Log1Ir(n), 1;
      case IrGen(_) => return if cfg.cacheSim then Log1IrGen0D(n) else Log1Ir(n), 1;
      case Dr(_, szB, ea) => return Log0Ir1Dr(n, ea, szB), 1;
      case Dm(_, szB, ea) => return Log0Ir1Dr(n, ea, szB), 1;
      case Dw(_, szB, ea) => return Log0Ir1Dw(n, ea, szB), 1;
      case Bc(_, taken) => return LogCondBranch(n, taken), 1;
      case Bi(_, dst) => return LogIndBranch(n, dst), 1;
    }

    /** flushEvents: the assertions that adjacent events share their instruction are proved in Choose. */
    method FlushEvents()
      requires Valid() && Coherent(cfg, events[..eventsUsed])
      modifies this`eventsUsed, this`sbOut
      ensures Valid() && Q() == Flush(cfg, old(Q()))
    {
      hide FlushCalls, FirstCall;
      ghost var q, out := events[..eventsUsed], sbOut;
      var i := 0;
      while i < eventsUsed
        invariant 0 <= i <= eventsUsed == |q| && q == events[..eventsUsed]
        invariant sbOut + Helpers(FlushCalls(cfg, q[i..])) == out + Helpers(FlushCalls(cfg, q))
      {
        assert q[i..] == events[i..eventsUsed];
        var c, k := Choose(i);
        NextHelper(cfg, sbOut, q[i..]);
        assert q[i..][k..] == q[i + k..];
        sbOut := sbOut + [Helper(c)];
        i := i + k;
      }
      assert q[i..] == [];
      NoHelpers(cfg, sbOut);
      eventsUsed := 0;
    }

    /** Room at the end of the queue, then the event. */
    method Append(e: Event)
      requires Valid() && Coherent(cfg, events[..eventsUsed])
      modifies this`eventsUsed, this`sbOut, events
      ensures Valid() && Q() == Add(cfg, events.Length, old(Q()), e)
    {
      if eventsUsed == events.Length {
        FlushEvents();
      }
      events[eventsUsed] := e;
      eventsUsed := eventsUsed + 1;
    }

    method AddEventIr(n: Inode)
      requires Valid() && Coherent(cfg, events[..eventsUsed])
      modifies this`eventsUsed, this`sbOut, events
      ensures Valid() && Q() == AddItem(cfg, events.Length, old(Q()), Do(IrEvent(cfg, n)))
    {
      if IsIrNoX(cfg.i1, cfg.ll, Access(n.addr, n.len)) {
        Append(IrNoX(n));
      } else {
        Append(IrGen(n));
      }
    }

    method AddEventDr(n: Inode, szB: nat, ea: Atom)
      requires Valid() && Coherent(cfg, events[..eventsUsed])
      modifies this`eventsUsed, this`sbOut, events
      ensures Valid() && Q() == AddItems(cfg, events.Length, old(Q()), ReadItem(cfg, n, szB, ea))
    {
      AddOne(cfg, events.Length, Q(), Do(Dr(n, szB, ea)));
      if !cfg.cacheSim {
        return;
      }
      Append(Dr(n, szB, ea));
    }

    method AddEventDw(n: Inode, szB: nat, ea: Atom)
      requires Valid() && Coherent(cfg, events[..eventsUsed])
      modifies this`eventsUsed, this`sbOut, events
      ensures Valid() && Q() == AddItems(cfg, events.Length, old(Q()), WriteItem(cfg, n, szB, ea))
    {
      AddOne(cfg, events.Length, Q(), Do(Dw(n, szB, ea)));
      if !cfg.cacheSim {
        return;
      }
      if eventsUsed > 0 && events[eventsUsed - 1] == Dr(n, szB, ea) {
        ghost var q := events[..eventsUsed];
        events[eventsUsed - 1] := Dm(n, szB, ea);
        assert events[..eventsUsed] == q[..|q| - 1] + [Dm(n, szB, ea)];
        return;
      }
      Append(Dw(n, szB, ea));
    }

    method AddEventDGuarded(n: Inode, szB: nat, ea: Atom, guard: Atom, isWrite: bool)
      requires Valid() && Coherent(cfg, events[..eventsUsed])
      modifies this`eventsUsed, this`sbOut
      ensures Valid()
      ensures Q() == if cfg.cacheSim then AddItem(cfg, events.Length, old(Q()), Only(if isWrite then Dw(n, szB, ea) else Dr(n, szB, ea), guard))
                     else old(Q())
    {
      if !cfg.cacheSim {
        return;
      }
      FlushEvents();
      sbOut := sbOut + [Guarded(if isWrite then Log0Ir1Dw(n, ea, szB) else Log0Ir1Dr(n, ea, szB), guard)];
    }

    method AddEventBc(n: Inode, taken: Taken)
      requires Valid() && Coherent(cfg, events[..eventsUsed])
      modifies this`eventsUsed, this`sbOut, events
      ensures Valid() && Q() == AddItems(cfg, events.Length, old(Q()), BranchItem(cfg, n, taken))
    {
      AddOne(cfg, events.Length, Q(), Do(Bc(n, taken)));
      if !cfg.branchSim {
        return;
      }
      Append(Bc(n, taken));
    }

    method AddEventBi(n: Inode, dst: Atom)
      requires Valid() && Coherent(cfg, events[..eventsUsed])
      modifies this`eventsUsed, this`sbOut, events
      ensures Valid() && Q() == if cfg.branchSim then AddItem(cfg, events.Length, old(Q()), Do(Bi(n, dst))) else old(Q())
    {
      if !cfg.branchSim {
        return;
      }
      Append(Bi(n, dst));
    }

    /** setup_InstrInfo: the next free instruction slot. */
    method SetupInstrInfo(addr: nat, len: nat, nInstrs: nat) returns (n: Inode)
      requires Valid() && sbInfoI < nInstrs
      modifies this`sbInfoI
      ensures Valid() && sbInfoI == old(sbInfoI) + 1 && n == NewInode(cfg, old(sbInfoI), addr, len)
    {
      n := Inode(sbInfoI, addr, if len == 0 then cfg.minInstr else len, cfg.line(addr));
      sbInfoI := sbInfoI + 1;
    }

    /** The switch of cg_instrument on one statement, which is then copied. */
    method AddStatement(n: Inode, st: Stmt, ghost n0: Inode, ghost before: seq<Item>)
      requires Valid() && Sound(cfg, n0, Q(), Merged(before)) && (st.IMark? || n0 == n)
      modifies this`eventsUsed, this`sbOut, events
      ensures Valid() && Q() == AddStmt(cfg, events.Length, old(Q()), n, st)
    {
      hide AddItems, AddItem, FlushCalls, Merged, BodyItems, IrEvent, Marks, Tail;
      ghost var q, N := Q(), events.Length;
      AddItemsSplit(cfg, N, q, [], []);
      match st {
        case Plain =>
        case IMark(_, _) =>
          AddOne(cfg, N, q, Do(IrEvent(cfg, n)));
          AddEventIr(n);
        case Load(size, ea) =>
          AddEventDr(n, size, ea);
        case Store(size, ea) =>
          AddEventDw(n, size, ea);
        case LoadG(size, ea, guard) =>
          AddOne(cfg, N, q, Only(Dr(n, size, ea), guard));
          AddEventDGuarded(n, size, ea, guard, false);
        case StoreG(size, ea, guard) =>
          AddOne(cfg, N, q, Only(Dw(n, size, ea), guard));
          AddEventDGuarded(n, size, ea, guard, true);
        case Dirty(fx, size, ea) =>
          var dataSize := if size > cfg.minLineSize then cfg.minLineSize else size;
          AddAccess(n, fx == Read || fx == Modify, fx == Write || fx == Modify, dataSize, ea, before);
        case Cas(size, ea) =>
          var dataSize := if size > cfg.minLineSize then cfg.minLineSize else size;
          AddAccess(n, true, true, dataSize, ea, before);
        case LoadLinked(size, ea) =>
          AddLoadLinked(n, size, ea, before);
        case StoreCond(size, ea) =>
          AddEventDw(n, size, ea);
        case Exit(guard, guestBranch, dst) =>
          AddExit(n, guard, guestBranch, dst, before);
      }
      assert Q() == AddItems(cfg, N, q, StmtItems(cfg, n, st));
      sbOut := sbOut + [Orig(st)];
    }

    /** The queue is flushed after a load-linked, so that nothing comes between it and its store. */
    method AddLoadLinked(n: Inode, size: nat, ea: Atom, ghost before: seq<Item>)
      requires Valid() && Sound(cfg, n, Q(), Merged(before))
      modifies this`eventsUsed, this`sbOut, events
      ensures Valid() && Q() == AddItems(cfg, events.Length, old(Q()), ReadItem(cfg, n, size, ea) + [Cut])
    {
      hide AddItems, FlushCalls, Merged;
      ghost var q, N := Q(), events.Length;
      ItemsKeepSound(cfg, N, n, q, before, ReadItem(cfg, n, size, ea));
      AddItemsSplit(cfg, N, q, ReadItem(cfg, n, size, ea), [Cut]);
      AddEventDr(n, size, ea);
      AddOne(cfg, N, Q(), Cut);
      FlushEvents();
    }

    /** A side exit: the branch event if it is a branch of the guest, then a flush. */
    method AddExit(n: Inode, guard: Atom, guestBranch: bool, dst: nat, ghost before: seq<Item>)
      requires Valid() && Sound(cfg, n, Q(), Merged(before))
      modifies this`eventsUsed, this`sbOut, events
      ensures Valid() && Q() == AddItems(cfg, events.Length, old(Q()), StmtItems(cfg, n, Exit(guard, guestBranch, dst)))
    {
      hide AddItems, FlushCalls, Merged;
      ghost var q, N := Q(), events.Length;
      var taken := Taken(guard, Inverted(n, dst));
      ghost var items := if guestBranch then BranchItem(cfg, n, taken) else [];
      ItemsKeepSound(cfg, N, n, q, before, items);
      AddItemsSplit(cfg, N, q, items, [Cut]);
      if guestBranch {
        AddEventBc(n, taken);
      }
      AddOne(cfg, N, Q(), Cut);
      FlushEvents();
    }

    /** A read, a write, or both of the same bytes. */
    method AddAccess(n: Inode, reads_: bool, writes_: bool, szB: nat, ea: Atom, ghost before: seq<Item>)
      requires Valid() && Sound(cfg, n, Q(), Merged(before))
      modifies this`eventsUsed, this`sbOut, events
      ensures Valid()
      ensures Q() == AddItems(cfg, events.Length, old(Q()),
                              (if reads_ then ReadItem(cfg, n, szB, ea) else []) + (if writes_ then WriteItem(cfg, n, szB, ea) else []))
    {
      hide FlushCalls, Merged;
      ghost var q, N := Q(), events.Length;
      ghost var r := if reads_ then ReadItem(cfg, n, szB, ea) else [];
      ghost var w := if writes_ then WriteItem(cfg, n, szB, ea) else [];
      if reads_ {
        AddEventDr(n, szB, ea);
      }
      assert Q() == AddItems(cfg, N, q, r);
      AddItemsSplit(cfg, N, q, r, w);
      ItemsKeepSound(cfg, N, n, q, before, r);
      if writes_ {
        AddEventDw(n, szB, ea);
      }
    }

    /** The statements before the first instruction mark are copied as they are. */
    method CopyPreamble(body: seq<Stmt>, ghost n: Inode) returns (i: nat)
      requires Valid() && Q() == Queue([], []) && Started(body)
      modifies this`sbOut
      ensures Valid() && i < |body| && body[i].IMark? && Marks(body[..i]) == 0
      ensures Q() == AddBody(cfg, events.Length, body[..i])
      ensures Sound(cfg, n, Q(), Merged(BodyItems(cfg, body[..i])))
    {
      hide Sound, Merged, BodyItems, AddBody, Marks, Current, AddStmt, AddItems;
      ghost var N := events.Length;
      EmptyIsSound(cfg, N, n);
      assert body[..0] == [];
      i := 0;
      while i < |body| && !body[i].IMark?
        invariant 0 <= i <= |body| && Valid() && eventsUsed == 0 && Marks(body[..i]) == 0
        invariant Q() == AddBody(cfg, N, body[..i])
        invariant Sound(cfg, n, Q(), Merged(BodyItems(cfg, body[..i])))
      {
        BodyNext(cfg, N, body, i);
        CopyKeepsSound(cfg, n, Q(), BodyItems(cfg, body[..i]), body[i]);
        sbOut := sbOut + [Orig(body[i])];
        i := i + 1;
      }
      assert body[..|body|] == body;
    }

    /** The walk of cg_instrument over a block that has an instruction mark. */
    method Instrument(body: seq<Stmt>, next: Next)
      requires Valid() && Q() == Queue([], []) && sbInfoI == 0 && Started(body)
      modifies this, events
      ensures Valid() && eventsUsed == 0 && sbOut == Instrumented(cfg, events.Length, body, next)
      ensures sbInfoI == Marks(body)
    {
      hide Sound, Merged, BodyItems, AddBody, Marks, Current, AddStmt, AddItems;
      ghost var N := events.Length;
      var nInstrs := CountMarks(body);
      var n := Inode(0, 0, 0, 0);
      var i := CopyPreamble(body, n);
      while i < |body|
        invariant 0 <= i <= |body| && Valid() && sbInfoI == Marks(body[..i])
        invariant Q() == AddBody(cfg, N, body[..i])
        invariant Sound(cfg, n, Q(), Merged(BodyItems(cfg, body[..i])))
        invariant if Started(body[..i]) then n == Current(cfg, body[..i]) else i < |body| && body[i].IMark?
      {
        var st := body[i];
        ghost var n0, q, before := n, Q(), BodyItems(cfg, body[..i]);
        BodyNext(cfg, N, body, i);
        if st.IMark? {
          n := SetupInstrInfo(st.addr, st.len, nInstrs);
        }
        AddStatement(n, st, n0, before);
        StmtKeepsSound(cfg, N, n0, n, q, before, st);
        i := i + 1;
      }
      assert body[..i] == body;
      EndBlock(n, next, BodyItems(cfg, body));
    }

    /** The branch at the end of the block, and the last flush. */
    method EndBlock(n: Inode, next: Next, ghost before: seq<Item>)
      requires Valid() && Sound(cfg, n, Q(), Merged(before))
      modifies this`eventsUsed, this`sbOut, events
      ensures Valid() && Q() == Flush(cfg, AddItems(cfg, events.Length, old(Q()), EndItems(cfg, n, next)))
    {
      ghost var q, N := Q(), events.Length;
      AddItemsSplit(cfg, N, q, [], []);
      ItemsKeepSound(cfg, N, n, q, before, EndItems(cfg, n, next));
      match next {
        case Known =>
        case Unknown(dst) =>
          AddOne(cfg, N, q, Do(Bi(n, dst)));
          AddEventBi(n, dst);
      }
      FlushEvents();
    }
  }

  /** get_SB_info: the number of instructions in the block. */
  method CountMarks(body: seq<Stmt>) returns (n: nat)
    ensures n == Marks(body)
  {
    n := 0;
    var i := 0;
    while i < |body|
      invariant 0 <= i <= |body| && n == Marks(body[..i])
    {
      assert Front(body[..i + 1]) == body[..i];
      if body[i].IMark? {
        n := n + 1;
      }
      i := i + 1;
    }
    assert body[..i] == body;
  }

  /** One more statement. */
  lemma BodyNext(cfg: Config, N: nat, body: seq<Stmt>, i: nat)
    requires i < |body|
    ensures var (p, b, st) := (body[..i], body[..i + 1], body[i]);
            && Marks(b) == Marks(p) + (if st.IMark? then 1 else 0) && Marks(b) <= Marks(body)
            && (Started(b) ==>
                  && Current(cfg, b) == (if st.IMark? then NewInode(cfg, Marks(p), st.addr, st.len) else Current(cfg, p))
                  && BodyItems(cfg, b) == BodyItems(cfg, p) + StmtItems(cfg, Current(cfg, b), st) + LeaveItem(st)
                  && AddBody(cfg, N, b) == AddStmt(cfg, N, AddBody(cfg, N, p), Current(cfg, b), st))
            && (!Started(b) ==>
                  && BodyItems(cfg, b) == BodyItems(cfg, p) + LeaveItem(st)
                  && AddBody(cfg, N, b) == Copied(AddBody(cfg, N, p), st))
  {
    assert Front(body[..i + 1]) == body[..i] && Last(body[..i + 1]) == body[i];
    MarksGrow(body, i + 1);
  }

  lemma {:induction false} MarksGrow(body: seq<Stmt>, i: nat)
    requires 0 < i <= |body|
    ensures Marks(body[..i]) == Marks(body[..i - 1]) + (if body[i - 1].IMark? then 1 else 0)
    ensures Marks(body[..i]) <= Marks(body)
    decreases |body|
  {
    assert Front(body[..i]) == body[..i - 1];
    if i == |body| {
      assert body[..i] == body;
    } else {
      MarksGrow(Front(body), i);
      assert Front(body)[..i] == body[..i];
    }
  }

  lemma {:induction false} AddItemsSplit(cfg: Config, N: nat, q: Queue, items: seq<Item>, more: seq<Item>)
    ensures AddItems(cfg, N, q, []) == q
    ensures AddItems(cfg, N, q, items + more) == AddItems(cfg, N, AddItems(cfg, N, q, items), more)
    ensures |more| == 1 ==> AddItems(cfg, N, q, more) == AddItem(cfg, N, q, more[0])
    decreases |more|
  {
    if more == [] {
      assert items + more == items;
    } else {
      assert Front(items + more) == items + Front(more);
      AddItemsSplit(cfg, N, q, items, Front(more));
      if |more| == 1 {
        AddOne(cfg, N, q, more[0]);
        assert more == [more[0]];
      }
    }
  }

  lemma NoHelpers(cfg: Config, out: seq<Out>)
    ensures out + Helpers(FlushCalls(cfg, [])) == out
  {
  }

  lemma NextHelper(cfg: Config, out: seq<Out>, q: seq<Event>)
    requires q != []
    ensures var (c, k) := FirstCall(cfg, q);
            out + Helpers(FlushCalls(cfg, q)) == out + [Helper(c)] + Helpers(FlushCalls(cfg, q[k..]))
  {
    hide FirstCall;
    var (c, k) := FirstCall(cfg, q);
    assert Helpers(FlushCalls(cfg, q)) == [Helper(c)] + Helpers(FlushCalls(cfg, q[k..]));
  }
}
