/** What a block does when it runs, told from its statements alone: the instructions it fetches, the memory it
    reads and writes, its branches; and that the simulation of cg_main.c counts exactly that. */
module BlockMeaning {
  import opened Options
  import opened Lru
  import opened SetCache
  import opened CacheModel
  import opened Hierarchy
  import opened AccessBytes
  import opened EventModel
  import opened EventWalk

  // ----- what happens

  /** Each is charged to the source line of its instruction. */
  datatype Happening =
    | Fetch(line: nat, addr: nat, len: nat)
    | ReadOf(line: nat, addr: nat, size: nat)
    | WriteOf(line: nat, addr: nat, size: nat)
    | Branch(line: nat, at: nat, taken: bool)
    | Goto(line: nat, at: nat, target: nat)

  function ValueOf(env: Env, a: Atom): nat {
    if a.Const? then a.v else env(a.t)
  }

  predicate ReadsMemory(env: Env, st: Stmt) {
    || st.Load? || st.LoadLinked? || st.Cas?
    || (st.LoadG? && ValueOf(env, st.guard) != 0)
    || (st.Dirty? && (st.fx.Read? || st.fx.Modify?))
  }

  predicate WritesMemory(env: Env, st: Stmt) {
    || st.Store? || st.StoreCond? || st.Cas?
    || (st.StoreG? && ValueOf(env, st.guard) != 0)
    || (st.Dirty? && (st.fx.Write? || st.fx.Modify?))
  }

  predicate HasAddress(st: Stmt) {
    !st.Plain? && !st.IMark? && !st.Exit?
  }

  /** Helper calls and compare-and-swaps of more than a line are taken for a line. */
  function SizeOf(cfg: Config, st: Stmt): nat
    requires HasAddress(st)
  {
    if (st.Dirty? || st.Cas?) && cfg.minLineSize < st.size then cfg.minLineSize else st.size
  }

  /** The last instruction mark of a part of a block: address and length. */
  ghost function Mark(cfg: Config, body: seq<Stmt>): Option<(nat, nat)> {
    if body == [] then None
    else if Last(body).IMark? then Some((Last(body).addr, if Last(body).len == 0 then cfg.minInstr else Last(body).len))
    else Mark(cfg, Front(body))
  }

  /** A statement reads before it writes. */
  function StmtDoes(cfg: Config, env: Env, addr: nat, len: nat, st: Stmt): seq<Happening> {
    var line := cfg.line(addr);
    if st.IMark? then [Fetch(line, addr, len)]
    else if st.Exit? then
      if st.guestBranch && cfg.branchSim
      then [Branch(line, addr, (ValueOf(env, st.guard) != 0) != ((addr + len) % 0x1_0000_0000_0000_0000 == st.dst))]
      else []
    else
      (if cfg.cacheSim && ReadsMemory(env, st) then [ReadOf(line, ValueOf(env, st.ea), SizeOf(cfg, st))] else [])
      + (if cfg.cacheSim && WritesMemory(env, st) then [WriteOf(line, ValueOf(env, st.ea), SizeOf(cfg, st))] else [])
  }

  /** Some side exit is taken. */
  ghost predicate Left(env: Env, body: seq<Stmt>) {
    exists k :: 0 <= k < |body| && body[k].Exit? && ValueOf(env, body[k].guard) != 0
  }

  /** Statements after a taken exit and before the first mark do nothing that is simulated. */
  ghost function BodyDoes(cfg: Config, env: Env, body: seq<Stmt>): seq<Happening> {
    if body == [] then []
    else
      BodyDoes(cfg, env, Front(body))
      + if Left(env, Front(body)) || Mark(cfg, body).None? then []
        else StmtDoes(cfg, env, Mark(cfg, body).value.0, Mark(cfg, body).value.1, Last(body))
  }

  ghost function BlockDoes(cfg: Config, env: Env, body: seq<Stmt>, next: Next): seq<Happening> {
    BodyDoes(cfg, env, body)
    + if cfg.branchSim && next.Unknown? && !Left(env, body) && Mark(cfg, body).Some?
      then [Goto(cfg.line(Mark(cfg, body).value.0), Mark(cfg, body).value.0, ValueOf(env, next.dst))]
      else []
  }

  // ----- simulating it

  ghost function Simulated(cfg: Config, st: State, h: Happening): (st': State)
    requires Fitted(cfg, st)
    ensures Fitted(cfg, st')
  {
    match h
    case Fetch(line, addr, len) =>
      if cfg.cacheSim then FetchGen(cfg, st, Inode(0, addr, len, line)) else FetchOnly(cfg, st, Inode(0, addr, len, line))
    case ReadOf(line, addr, size) => DataRead(cfg, st, Inode(0, 0, 0, line), addr, size)
    case WriteOf(line, addr, size) => DataWrite(cfg, st, Inode(0, 0, 0, line), addr, size)
    case Branch(line, at, taken) => CondBranch(cfg, st, Inode(0, at, 0, line), if taken then 1 else 0)
    case Goto(line, at, target) => IndBranch(cfg, st, Inode(0, at, 0, line), target)
  }

  ghost function SimulatedAll(cfg: Config, st: State, hs: seq<Happening>): (st': State)
    requires Fitted(cfg, st)
    ensures Fitted(cfg, st')
    decreases |hs|
  {
    if hs == [] then st else Simulated(cfg, SimulatedAll(cfg, st, Front(hs)), Last(hs))
  }

  lemma {:induction false} SimulatedConcat(cfg: Config, st: State, hs: seq<Happening>, more: seq<Happening>)
    requires Fitted(cfg, st)
    ensures SimulatedAll(cfg, st, hs + more) == SimulatedAll(cfg, SimulatedAll(cfg, st, hs), more)
    decreases |more|
  {
    hide Simulated;
    if more == [] {
      assert hs + more == hs;
    } else {
      assert Front(hs + more) == hs + Front(more) && Last(hs + more) == Last(more);
      SimulatedConcat(cfg, st, hs, Front(more));
    }
  }

  lemma SimulatedOne(cfg: Config, st: State, h: Happening)
    requires Fitted(cfg, st)
    ensures SimulatedAll(cfg, st, [h]) == Simulated(cfg, st, h) && SimulatedAll(cfg, st, []) == st
  {
    assert Front([h]) == [];
  }

  lemma SimulatedTwo(cfg: Config, st: State, h: Happening, h': Happening)
    requires Fitted(cfg, st)
    ensures SimulatedAll(cfg, st, [h] + [h']) == Simulated(cfg, Simulated(cfg, st, h), h')
  {
    hide Simulated;
    SimulatedConcat(cfg, st, [h], [h']);
    SimulatedOne(cfg, st, h);
    SimulatedOne(cfg, Simulated(cfg, st, h), h');
  }

  // ----- the events of the walk are what happens

  lemma {:induction false} RunItemsConcat(cfg: Config, env: Env, r: Run, items: seq<Item>, more: seq<Item>)
    requires FittedRun(cfg, r)
    ensures RunItems(cfg, env, r, items + more) == RunItems(cfg, env, RunItems(cfg, env, r, items), more)
    decreases |more|
  {
    hide RunItem;
    if more == [] {
      assert items + more == items;
    } else {
      assert Front(items + more) == items + Front(more) && Last(items + more) == Last(more);
      RunItemsConcat(cfg, env, r, items, Front(more));
    }
  }

  lemma {:induction false} NothingAfterLeaving(cfg: Config, env: Env, r: Run, items: seq<Item>)
    requires FittedRun(cfg, r) && r.left
    ensures RunItems(cfg, env, r, items) == r
    decreases |items|
  {
    if items != [] {
      NothingAfterLeaving(cfg, env, r, Front(items));
    }
  }

  lemma RunOne(cfg: Config, env: Env, r: Run, it: Item)
    requires FittedRun(cfg, r)
    ensures RunItems(cfg, env, r, [it]) == RunItem(cfg, env, r, it) && RunItems(cfg, env, r, []) == r
  {
    assert Front([it]) == [];
  }

  lemma RunTwo(cfg: Config, env: Env, r: Run, it: Item, it': Item)
    requires FittedRun(cfg, r)
    ensures RunItems(cfg, env, r, [it] + [it']) == RunItem(cfg, env, RunItem(cfg, env, r, it), it')
  {
    hide RunItem;
    RunItemsConcat(cfg, env, r, [it], [it']);
    RunOne(cfg, env, r, it);
    RunOne(cfg, env, RunItem(cfg, env, r, it), it');
  }

  /** Inode n stands for the instruction of len bytes at addr. */
  predicate StandsFor(cfg: Config, n: Inode, addr: nat, len: nat) {
    n.addr == addr && n.len == len && n.parent == cfg.line(addr)
  }

  /** Which instruction of its block it is does not matter to the simulation. */
  lemma FetchIsFetch(cfg: Config, env: Env, st: State, n: Inode, addr: nat, len: nat)
    requires Fitted(cfg, st) && StandsFor(cfg, n, addr, len)
    ensures ExecEvent(cfg, env, st, IrEvent(cfg, n)) == Simulated(cfg, st, Fetch(cfg.line(addr), addr, len))
  {
    hide DoRef;
  }

  lemma ReadIsRead(cfg: Config, env: Env, st: State, n: Inode, size: nat, ea: Atom)
    requires Fitted(cfg, st)
    ensures ExecEvent(cfg, env, st, Dr(n, size, ea)) == Simulated(cfg, st, ReadOf(n.parent, Eval(env, ea), size))
  {
    hide DoRef;
  }

  lemma WriteIsWrite(cfg: Config, env: Env, st: State, n: Inode, size: nat, ea: Atom)
    requires Fitted(cfg, st)
    ensures ExecEvent(cfg, env, st, Dw(n, size, ea)) == Simulated(cfg, st, WriteOf(n.parent, Eval(env, ea), size))
  {
    hide DoRef;
  }

  lemma BranchIsBranch(cfg: Config, env: Env, st: State, n: Inode, addr: nat, len: nat, guard: Atom, dst: nat)
    requires Fitted(cfg, st) && StandsFor(cfg, n, addr, len)
    ensures ExecEvent(cfg, env, st, Bc(n, Taken(guard, Inverted(n, dst))))
         == Simulated(cfg, st, Branch(cfg.line(addr), addr, (Eval(env, guard) != 0) != ((addr + len) % 0x1_0000_0000_0000_0000 == dst)))
  {
  }

  lemma GotoIsGoto(cfg: Config, env: Env, st: State, n: Inode, addr: nat, len: nat, dst: Atom)
    requires Fitted(cfg, st) && StandsFor(cfg, n, addr, len)
    ensures ExecEvent(cfg, env, st, Bi(n, dst)) == Simulated(cfg, st, Goto(cfg.line(addr), addr, Eval(env, dst)))
  {
  }

  /** One statement: the run goes on through what it does, and is left where a taken exit leaves it. */
  lemma StmtRuns(cfg: Config, env: Env, st: State, n: Inode, addr: nat, len: nat, stmt: Stmt)
    requires Fitted(cfg, st) && StandsFor(cfg, n, addr, len)
    ensures RunItems(cfg, env, Run(st, false), StmtItems(cfg, n, stmt) + LeaveItem(stmt))
         == Run(SimulatedAll(cfg, st, StmtDoes(cfg, env, addr, len, stmt)), stmt.Exit? && Eval(env, stmt.guard) != 0)
  {
    hide ExecEvent, Simulated, RunItems, SimulatedAll, IrEvent;
    var r := Run(st, false);
    if stmt.Exit? {
      ExitRuns(cfg, env, st, n, addr, len, stmt);
    } else if stmt.IMark? {
      var it := Do(IrEvent(cfg, n));
      assert StmtItems(cfg, n, stmt) + [] == [it];
      RunOne(cfg, env, r, it);
      FetchIsFetch(cfg, env, st, n, addr, len);
      SimulatedOne(cfg, st, Fetch(cfg.line(addr), addr, len));
    } else {
      assert StmtItems(cfg, n, stmt) + [] == StmtItems(cfg, n, stmt);
      AccessRuns(cfg, env, st, n, addr, len, stmt);
    }
  }

  lemma ExitRuns(cfg: Config, env: Env, st: State, n: Inode, addr: nat, len: nat, stmt: Stmt)
    requires Fitted(cfg, st) && StandsFor(cfg, n, addr, len) && stmt.Exit?
    ensures RunItems(cfg, env, Run(st, false), StmtItems(cfg, n, stmt) + LeaveItem(stmt))
         == Run(SimulatedAll(cfg, st, StmtDoes(cfg, env, addr, len, stmt)), Eval(env, stmt.guard) != 0)
  {
    hide ExecEvent, Simulated, RunItems, SimulatedAll, Inverted;
    var r, leave := Run(st, false), [Cut] + [Leave(stmt.guard)];
    if stmt.guestBranch && cfg.branchSim {
      var it := Do(Bc(n, Taken(stmt.guard, Inverted(n, stmt.dst))));
      var h := Branch(cfg.line(addr), addr, (Eval(env, stmt.guard) != 0) != ((addr + len) % 0x1_0000_0000_0000_0000 == stmt.dst));
      assert StmtItems(cfg, n, stmt) + LeaveItem(stmt) == [it] + leave;
      RunItemsConcat(cfg, env, r, [it], leave);
      RunOne(cfg, env, r, it);
      BranchIsBranch(cfg, env, st, n, addr, len, stmt.guard, stmt.dst);
      RunTwo(cfg, env, RunItem(cfg, env, r, it), Cut, Leave(stmt.guard));
      SimulatedOne(cfg, st, h);
    } else {
      assert StmtItems(cfg, n, stmt) + LeaveItem(stmt) == leave;
      RunTwo(cfg, env, r, Cut, Leave(stmt.guard));
      SimulatedNone(cfg, st);
    }
  }

  lemma SimulatedNone(cfg: Config, st: State)
    requires Fitted(cfg, st)
    ensures SimulatedAll(cfg, st, []) == st
  {
  }

  lemma RunNone(cfg: Config, env: Env, r: Run)
    requires FittedRun(cfg, r)
    ensures RunItems(cfg, env, r, []) == r
  {
  }

  /** The reads and writes of a statement. */
  lemma AccessRuns(cfg: Config, env: Env, st: State, n: Inode, addr: nat, len: nat, stmt: Stmt)
    requires Fitted(cfg, st) && StandsFor(cfg, n, addr, len) && !stmt.Exit? && !stmt.IMark?
    ensures RunItems(cfg, env, Run(st, false), StmtItems(cfg, n, stmt))
         == Run(SimulatedAll(cfg, st, StmtDoes(cfg, env, addr, len, stmt)), false)
  {
    hide ExecEvent, Simulated, RunItems, SimulatedAll;
    var r, line := Run(st, false), cfg.line(addr);
    RunNone(cfg, env, r);
    SimulatedNone(cfg, st);
    if HasAddress(stmt) && cfg.cacheSim {
      var size := SizeOf(cfg, stmt);
      var d, w := Dr(n, size, stmt.ea), Dw(n, size, stmt.ea);
      var hd, hw := ReadOf(line, Eval(env, stmt.ea), size), WriteOf(line, Eval(env, stmt.ea), size);
      ReadIsRead(cfg, env, st, n, size, stmt.ea);
      WriteIsWrite(cfg, env, st, n, size, stmt.ea);
      WriteIsWrite(cfg, env, Simulated(cfg, st, hd), n, size, stmt.ea);
      SimulatedOne(cfg, st, hd);
      SimulatedOne(cfg, st, hw);
      SimulatedTwo(cfg, st, hd, hw);
      RunOne(cfg, env, r, Do(d));
      RunOne(cfg, env, r, Do(w));
      RunTwo(cfg, env, r, Do(d), Do(w));
      RunTwo(cfg, env, r, Do(d), Cut);
      assert [hd] + [] == [hd] && [] + [hw] == [hw];
      assert [Do(d)] + [] == [Do(d)] && [] + [Do(w)] == [Do(w)];
      if stmt.LoadG? { RunOne(cfg, env, r, Only(d, stmt.guard)); }
      if stmt.StoreG? { RunOne(cfg, env, r, Only(w, stmt.guard)); }
    } else {
      assert StmtDoes(cfg, env, addr, len, stmt) == [];
      RunOne(cfg, env, r, Cut);
      assert StmtItems(cfg, n, stmt) == if stmt.LoadLinked? then [Cut] else [];
    }
  }

  // ----- the whole block

  lemma {:induction false} MarkIsCurrent(cfg: Config, body: seq<Stmt>)
    ensures Started(body) <==> Mark(cfg, body).Some?
    ensures Started(body) ==> StandsFor(cfg, Current(cfg, body), Mark(cfg, body).value.0, Mark(cfg, body).value.1)
  {
    if body != [] {
      MarkIsCurrent(cfg, Front(body));
      assert Started(body) <==> Last(body).IMark? || Started(Front(body));
    }
  }

  lemma LeftNow(env: Env, body: seq<Stmt>)
    requires body != []
    ensures Left(env, body) <==> Left(env, Front(body)) || (Last(body).Exit? && Eval(env, Last(body).guard) != 0)
  {
    if Left(env, Front(body)) {
      var k :| 0 <= k < |body| - 1 && Front(body)[k].Exit? && Eval(env, Front(body)[k].guard) != 0;
      assert body[k] == Front(body)[k];
    }
    if Left(env, body) {
      var k :| 0 <= k < |body| && body[k].Exit? && Eval(env, body[k].guard) != 0;
      assert k < |body| - 1 ==> Front(body)[k] == body[k];
    }
  }

  lemma {:induction false} BodyRuns(cfg: Config, env: Env, st: State, body: seq<Stmt>)
    requires Fitted(cfg, st)
    ensures RunItems(cfg, env, Run(st, false), BodyItems(cfg, body))
         == Run(SimulatedAll(cfg, st, BodyDoes(cfg, env, body)), Left(env, body))
    decreases |body|
  {
    hide RunItems, SimulatedAll, StmtItems, StmtDoes, Left, Mark, LeaveItem;
    if body == [] {
      RunNone(cfg, env, Run(st, false));
      SimulatedNone(cfg, st);
      NotLeftYet(env);
    } else {
      BodyRuns(cfg, env, st, Front(body));
      BodyStep(cfg, env, st, body);
    }
  }

  lemma NotLeftYet(env: Env)
    ensures !Left(env, [])
  {
  }

  /** The items the last statement of body adds. */
  ghost function LastItems(cfg: Config, body: seq<Stmt>): seq<Item>
    requires body != []
  {
    (if Started(body) then StmtItems(cfg, Current(cfg, body), Last(body)) else []) + LeaveItem(Last(body))
  }

  /** What the last statement of body does. */
  ghost function LastDoes(cfg: Config, env: Env, body: seq<Stmt>): seq<Happening>
    requires body != []
  {
    if Left(env, Front(body)) || Mark(cfg, body).None? then []
    else StmtDoes(cfg, env, Mark(cfg, body).value.0, Mark(cfg, body).value.1, Last(body))
  }

  lemma LastRuns(cfg: Config, env: Env, st: State, body: seq<Stmt>)
    requires Fitted(cfg, st) && body != []
    ensures RunItems(cfg, env, Run(st, Left(env, Front(body))), LastItems(cfg, body))
         == Run(SimulatedAll(cfg, st, LastDoes(cfg, env, body)), Left(env, body))
  {
    hide RunItems, SimulatedAll, StmtItems, StmtDoes, Left, Mark, LeaveItem, Started, Current;
    LeftNow(env, body);
    MarkIsCurrent(cfg, body);
    SimulatedNone(cfg, st);
    if Left(env, Front(body)) {
      NothingAfterLeaving(cfg, env, Run(st, true), LastItems(cfg, body));
    } else if Started(body) {
      StmtRuns(cfg, env, st, Current(cfg, body), Mark(cfg, body).value.0, Mark(cfg, body).value.1, Last(body));
    } else {
      assert LastItems(cfg, body) == LeaveItem(Last(body));
      PreambleRuns(cfg, env, st, Last(body));
    }
  }

  lemma BodyStep(cfg: Config, env: Env, st: State, body: seq<Stmt>)
    requires Fitted(cfg, st) && body != []
    requires RunItems(cfg, env, Run(st, false), BodyItems(cfg, Front(body)))
          == Run(SimulatedAll(cfg, st, BodyDoes(cfg, env, Front(body))), Left(env, Front(body)))
    ensures RunItems(cfg, env, Run(st, false), BodyItems(cfg, body))
         == Run(SimulatedAll(cfg, st, BodyDoes(cfg, env, body)), Left(env, body))
  {
    hide RunItems, SimulatedAll, LastItems, LastDoes, Left;
    var before, done := BodyItems(cfg, Front(body)), BodyDoes(cfg, env, Front(body));
    LastSplit(cfg, env, body);
    RunItemsConcat(cfg, env, Run(st, false), before, LastItems(cfg, body));
    SimulatedConcat(cfg, st, done, LastDoes(cfg, env, body));
    LastRuns(cfg, env, SimulatedAll(cfg, st, done), body);
  }

  lemma LastSplit(cfg: Config, env: Env, body: seq<Stmt>)
    requires body != []
    ensures BodyItems(cfg, body) == BodyItems(cfg, Front(body)) + LastItems(cfg, body)
    ensures BodyDoes(cfg, env, body) == BodyDoes(cfg, env, Front(body)) + LastDoes(cfg, env, body)
  {
    hide StmtItems, StmtDoes, Left, Mark, LeaveItem, Current, Started;
  }

  lemma PreambleRuns(cfg: Config, env: Env, st: State, stmt: Stmt)
    requires Fitted(cfg, st)
    ensures RunItems(cfg, env, Run(st, false), LeaveItem(stmt)) == Run(st, stmt.Exit? && Eval(env, stmt.guard) != 0)
  {
    if stmt.Exit? {
      RunOne(cfg, env, Run(st, false), Leave(stmt.guard));
    }
  }

  /** The events queued for a block, one at a time and unmerged, simulate exactly what the block does: its
      fetches, reads, writes and branches, in order and up to a taken exit. */
  lemma BlockSimulatesMeaning(cfg: Config, env: Env, st: State, body: seq<Stmt>, next: Next)
    requires Fitted(cfg, st) && Started(body)
    ensures RunItems(cfg, env, Run(st, false), BlockItems(cfg, body, next))
         == Run(SimulatedAll(cfg, st, BlockDoes(cfg, env, body, next)), Left(env, body))
  {
    hide RunItems, SimulatedAll, BodyItems, BodyDoes, Left, Mark, Started, Current, ExecEvent, Simulated;
    var r, n := Run(st, false), Current(cfg, body);
    BodyRuns(cfg, env, st, body);
    MarkIsCurrent(cfg, body);
    var (addr, len) := Mark(cfg, body).value;
    var r1 := RunItems(cfg, env, r, BodyItems(cfg, body));
    var ends := EndItems(cfg, n, next) + [Cut];
    assert BlockItems(cfg, body, next) == BodyItems(cfg, body) + ends;
    RunItemsConcat(cfg, env, r, BodyItems(cfg, body), ends);
    if r1.left {
      NothingAfterLeaving(cfg, env, r1, ends);
      assert BlockDoes(cfg, env, body, next) == BodyDoes(cfg, env, body);
    } else if next.Unknown? && cfg.branchSim {
      var h := Goto(cfg.line(addr), addr, Eval(env, next.dst));
      RunTwo(cfg, env, r1, Do(Bi(n, next.dst)), Cut);
      GotoIsGoto(cfg, env, r1.st, n, addr, len, next.dst);
      SimulatedConcat(cfg, st, BodyDoes(cfg, env, body), [h]);
      SimulatedOne(cfg, r1.st, h);
    } else {
      assert ends == [Cut] && BlockDoes(cfg, env, body, next) == BodyDoes(cfg, env, body);
      RunOne(cfg, env, r1, Cut);
    }
  }

  // ----- the counters

  datatype Kind = Fetches | Reads | Writings | Branches | Gotos

  predicate IsOf(h: Happening, k: Kind, line: nat) {
    && h.line == line
    && match k
       case Fetches => h.Fetch?
       case Reads => h.ReadOf?
       case Writings => h.WriteOf?
       case Branches => h.Branch?
       case Gotos => h.Goto?
  }

  ghost function HowMany(hs: seq<Happening>, k: Kind, line: nat): nat {
    if hs == [] then 0 else HowMany(Front(hs), k, line) + if IsOf(Last(hs), k, line) then 1 else 0
  }

  /** Ir.a, Dr.a, Dw.a, Bc.b and Bi.b of a source line. */
  function CounterOf(s: Sim, k: Kind, line: nat): nat {
    match k
    case Fetches => CC(s, line).Ir.a
    case Reads => CC(s, line).Dr.a
    case Writings => Writes(s, line)
    case Branches => CC(s, line).Bc.b
    case Gotos => CC(s, line).Bi.b
  }

  lemma OneCounts(cfg: Config, st: State, h: Happening, k: Kind, line: nat)
    requires Fitted(cfg, st) && Simulated(cfg, st, h).Some?
    ensures st.Some?
    ensures CounterOf(Simulated(cfg, st, h).value, k, line) == CounterOf(st.value, k, line) + if IsOf(h, k, line) then 1 else 0
  {
    hide DoRef;
  }

  /** Every counter of every source line grows by the number of things of its kind that happened there. */
  lemma {:induction false} CountersGrow(cfg: Config, st: State, hs: seq<Happening>, k: Kind, line: nat)
    requires Fitted(cfg, st) && SimulatedAll(cfg, st, hs).Some?
    ensures st.Some?
    ensures CounterOf(SimulatedAll(cfg, st, hs).value, k, line) == CounterOf(st.value, k, line) + HowMany(hs, k, line)
    decreases |hs|
  {
    hide Simulated, IsOf, CounterOf;
    if hs != [] {
      OneCounts(cfg, SimulatedAll(cfg, st, Front(hs)), Last(hs), k, line);
      CountersGrow(cfg, st, Front(hs), k, line);
    }
  }

  /** What an access of a level-one cache adds to its counters. */
  ghost predicate Adds(g: Geometry, G: Geometry, l1: Tags, ll: Tags, a: Access, before: CacheCC, after: CacheCC)
    requires Matches(g, l1) && Matches(G, ll)
  {
    && after.a == before.a + 1
    && after.m1 == before.m1 + (if SomeMiss(g, l1, a) then 1 else 0)
    && after.mL == before.mL + (if SomeMiss(g, l1, a) && SomeMiss(G, ll, a) then 1 else 0)
  }

  lemma LineUpdated(s: Sim, s': Sim, line: nat, c: LineCC)
    requires s'.cc == s.cc[line := c]
    ensures CC(s', line) == c && forall q :: q != line ==> CC(s', q) == CC(s, q)
  {
  }

  lemma FetchIs(cfg: Config, s: Sim, line: nat, addr: nat, len: nat)
    requires Fitted(cfg, Some(s)) && cfg.cacheSim && Simulated(cfg, Some(s), Fetch(line, addr, len)).Some?
    ensures var e, c := DoRef(cfg.i1, cfg.ll, s.i1, s.ll, Access(addr, len)), CC(s, line);
            && e.Done?
            && Simulated(cfg, Some(s), Fetch(line, addr, len)).value
               == s.(i1 := e.l1, ll := e.ll, cc := s.cc[line := c.(Ir := CacheCC(c.Ir.a + 1, c.Ir.m1 + e.m1, c.Ir.mL + e.mL))])
  {
    hide DoRef;
  }

  lemma ReadIs(cfg: Config, s: Sim, line: nat, addr: nat, size: nat)
    requires Fitted(cfg, Some(s)) && Simulated(cfg, Some(s), ReadOf(line, addr, size)).Some?
    ensures var e, c := DoRef(cfg.d1, cfg.ll, s.d1, s.ll, Access(addr, size)), CC(s, line);
            && e.Done?
            && Simulated(cfg, Some(s), ReadOf(line, addr, size)).value
               == s.(d1 := e.l1, ll := e.ll, cc := s.cc[line := c.(Dr := CacheCC(c.Dr.a + 1, c.Dr.m1 + e.m1, c.Dr.mL + e.mL))])
  {
    hide DoRef;
  }

  lemma WriteIs(cfg: Config, s: Sim, line: nat, addr: nat, size: nat)
    requires Fitted(cfg, Some(s)) && Simulated(cfg, Some(s), WriteOf(line, addr, size)).Some?
    ensures var e, c := DoRef(cfg.d1, cfg.ll, s.d1, s.ll, Access(addr, size)), CC(s, line);
            && e.Done?
            && Simulated(cfg, Some(s), WriteOf(line, addr, size)).value
               == s.(d1 := e.l1, ll := e.ll,
                     cc := s.cc[line := c.(DwMisses := (c.DwMisses.0 + e.m1, c.DwMisses.1 + e.mL))],
                     writes := s.writes[line := Writes(s, line) + 1])
  {
    hide DoRef;
  }

  /** A fetch counts in Ir of its line, by its bytes, and nowhere else. */
  lemma FetchCounts(cfg: Config, s: Sim, line: nat, addr: nat, len: nat)
    requires Fitted(cfg, Some(s)) && cfg.cacheSim && Proper(Access(addr, len))
    requires Simulated(cfg, Some(s), Fetch(line, addr, len)).Some?
    ensures var s' := Simulated(cfg, Some(s), Fetch(line, addr, len)).value;
            && Adds(cfg.i1, cfg.ll, s.i1, s.ll, Access(addr, len), CC(s, line).Ir, CC(s', line).Ir)
            && CC(s', line) == CC(s, line).(Ir := CC(s', line).Ir)
            && (forall q :: q != line ==> CC(s', q) == CC(s, q))
            && s'.writes == s.writes && s'.d1 == s.d1 && s'.tables == s.tables
  {
    hide DoRef, SomeMiss, Simulated, CC;
    FetchIs(cfg, s, line, addr, len);
    DoRefCounts(cfg.i1, cfg.ll, s.i1, s.ll, Access(addr, len));
    var e, c := DoRef(cfg.i1, cfg.ll, s.i1, s.ll, Access(addr, len)), CC(s, line);
    LineUpdated(s, Simulated(cfg, Some(s), Fetch(line, addr, len)).value, line,
                c.(Ir := CacheCC(c.Ir.a + 1, c.Ir.m1 + e.m1, c.Ir.mL + e.mL)));
  }

  /** A read counts in Dr. */
  lemma ReadCounts(cfg: Config, s: Sim, line: nat, addr: nat, size: nat)
    requires Fitted(cfg, Some(s)) && Proper(Access(addr, size)) && Simulated(cfg, Some(s), ReadOf(line, addr, size)).Some?
    ensures var s' := Simulated(cfg, Some(s), ReadOf(line, addr, size)).value;
            && Adds(cfg.d1, cfg.ll, s.d1, s.ll, Access(addr, size), CC(s, line).Dr, CC(s', line).Dr)
            && CC(s', line) == CC(s, line).(Dr := CC(s', line).Dr)
            && (forall q :: q != line ==> CC(s', q) == CC(s, q))
            && s'.writes == s.writes && s'.i1 == s.i1 && s'.tables == s.tables
  {
    hide DoRef, SomeMiss, Simulated, CC;
    ReadIs(cfg, s, line, addr, size);
    DoRefCounts(cfg.d1, cfg.ll, s.d1, s.ll, Access(addr, size));
    var e, c := DoRef(cfg.d1, cfg.ll, s.d1, s.ll, Access(addr, size)), CC(s, line);
    LineUpdated(s, Simulated(cfg, Some(s), ReadOf(line, addr, size)).value, line,
                c.(Dr := CacheCC(c.Dr.a + 1, c.Dr.m1 + e.m1, c.Dr.mL + e.mL)));
  }

  /** A write counts in Dw. */
  lemma WriteCounts(cfg: Config, s: Sim, line: nat, addr: nat, size: nat)
    requires Fitted(cfg, Some(s)) && Proper(Access(addr, size)) && Simulated(cfg, Some(s), WriteOf(line, addr, size)).Some?
    ensures var s' := Simulated(cfg, Some(s), WriteOf(line, addr, size)).value;
            && Adds(cfg.d1, cfg.ll, s.d1, s.ll, Access(addr, size),
                    CacheCC(Writes(s, line), CC(s, line).DwMisses.0, CC(s, line).DwMisses.1),
                    CacheCC(Writes(s', line), CC(s', line).DwMisses.0, CC(s', line).DwMisses.1))
            && CC(s', line) == CC(s, line).(DwMisses := CC(s', line).DwMisses)
            && (forall q :: q != line ==> CC(s', q) == CC(s, q) && Writes(s', q) == Writes(s, q))
            && s'.i1 == s.i1 && s'.tables == s.tables
  {
    hide DoRef, SomeMiss, Simulated, CC;
    WriteIs(cfg, s, line, addr, size);
    DoRefCounts(cfg.d1, cfg.ll, s.d1, s.ll, Access(addr, size));
    var e, c := DoRef(cfg.d1, cfg.ll, s.d1, s.ll, Access(addr, size)), CC(s, line);
    LineUpdated(s, Simulated(cfg, Some(s), WriteOf(line, addr, size)).value, line,
                c.(DwMisses := (c.DwMisses.0 + e.m1, c.DwMisses.1 + e.mL)));
  }

  // ----- which writes are merged

  /** The writes of a line that directly follow a read of the same bytes by the same instruction, and are
      reached. */
  ghost function Pairs(cfg: Config, env: Env, r: Run, items: seq<Item>, line: nat): nat
    requires FittedRun(cfg, r)
    decreases |items|
  {
    if items == [] then 0
    else Pairs(cfg, env, r, Front(items), line)
         + if IsPair(items) && Last(items).e.inode.parent == line && !RunItems(cfg, env, r, Front(items)).left then 1 else 0
  }

  predicate IsPair(items: seq<Item>) {
    && |items| > 1 && items[|items| - 1].Do? && items[|items| - 1].e.Dw?
    && var w := items[|items| - 1].e;
       items[|items| - 2] == Do(Dr(w.inode, w.szB, w.ea))
  }

  lemma {:induction false} LastReadStays(items: seq<Item>, d: Event)
    requires items != [] && d.Dr?
    ensures Merged(items) != [] && (Last(Merged(items)) == Do(d) <==> Last(items) == Do(d))
  {
  }

  /** The modifies of the merged list are the executed pairs. */
  lemma {:induction false} ModifiesArePairs(cfg: Config, env: Env, r: Run, items: seq<Item>, line: nat)
    requires FittedRun(cfg, r) && cfg.d1.Usable() && NoModify(items)
    ensures Modifies(cfg, env, r, Merged(items), line) == Pairs(cfg, env, r, items, line)
    decreases |items|
  {
    hide RunItems, SameButWrites, Merged;
    if items == [] {
      assert Merged([]) == [] by { NothingMerged(); }
    } else {
      var before, it := Front(items), Last(items);
      ModifiesArePairs(cfg, env, r, before, line);
      assert items == before + [it];
      MergedAppend(before, it);
      if IsPair(items) {
        LastReadStays(before, Dr(it.e.inode, it.e.szB, it.e.ea));
        PairMerges(cfg, env, r, before, it, line);
      } else {
        NoPairAppends(before, it);
        ModifiesAppend(cfg, env, r, Merged(before), it, line);
      }
    }
  }

  lemma NothingMerged()
    ensures Merged([]) == []
  {
  }

  lemma NoPairAppends(before: seq<Item>, it: Item)
    requires !IsPair(before + [it])
    ensures Push(Merged(before), it) == Merged(before) + [it]
  {
    if before != [] && it.Do? && it.e.Dw? {
      LastReadStays(before, Dr(it.e.inode, it.e.szB, it.e.ea));
    }
  }

  lemma PairMerges(cfg: Config, env: Env, r: Run, before: seq<Item>, w: Item, line: nat)
    requires FittedRun(cfg, r) && cfg.d1.Usable() && w.Do? && w.e.Dw?
    requires Merged(before) != [] && Last(Merged(before)) == Do(Dr(w.e.inode, w.e.szB, w.e.ea))
    ensures Modifies(cfg, env, r, Push(Merged(before), w), line) == Modifies(cfg, env, r, Merged(before), line)
         + if w.e.inode.parent == line && !RunItems(cfg, env, r, before).left then 1 else 0
  {
    hide RunItems, RunItem, SameButWrites, Merged;
    var m, d := Merged(before), Do(Dr(w.e.inode, w.e.szB, w.e.ea));
    assert m == Front(m) + [d];
    ModifiesAppend(cfg, env, r, Front(m), d, line);
    ModifiesAppend(cfg, env, r, Front(m), Do(Dm(w.e.inode, w.e.szB, w.e.ea)), line);
    RunAppend(cfg, env, r, Front(m), d);
    MergeIsLossless(cfg, env, r, before);
    LeftAfterRead(cfg, env, RunItems(cfg, env, r, before), RunItems(cfg, env, r, Front(m)), d);
  }

  // ----- the instrumented block

  /** End to end: the instrumented block leaves caches, predictors and all counters as if what the block does
      were simulated step by step, but for the write counts, which lack exactly the writes that directly
      follow a read of the same bytes by their instruction. */
  lemma InstrumentedBlockMeans(cfg: Config, N: nat, env: Env, st: State, body: seq<Stmt>, next: Next, line: nat)
    requires Fitted(cfg, st) && N > 0 && cfg.d1.Usable() && Started(body)
    ensures var m, u := RunOut(cfg, env, Run(st, false), Instrumented(cfg, N, body, next)),
                        Run(SimulatedAll(cfg, st, BlockDoes(cfg, env, body, next)), Left(env, body));
            && SameButWrites(u, m)
            && (u.st.Some? ==> Writes(u.st.value, line) == Writes(m.st.value, line)
                               + Pairs(cfg, env, Run(st, false), BlockItems(cfg, body, next), line))
  {
    hide RunItems, RunOut, Merged, Modifies, Pairs, BlockDoes, SimulatedAll, BodyItems, Instrumented, Left, Current, Started;
    var r, items := Run(st, false), BlockItems(cfg, body, next);
    BlockSimulatesMeaning(cfg, env, st, body, next);
    InstrumentationMeans(cfg, N, env, r, body, next);
    MergeLowersWritesExactly(cfg, env, r, body, next, line);
    BodyHasNoModify(cfg, body);
    ModifiesArePairs(cfg, env, r, items, line);
  }

  /** The event of an instruction is the special fetch exactly when the instruction lies in one line and the
      lines of both levels have the same size. */
  lemma SpecialFetchIff(cfg: Config, n: Inode)
    requires Proper(Access(n.addr, n.len))
    ensures IrEvent(cfg, n).IrNoX? <==>
              && cfg.i1.lineBits == cfg.ll.lineBits
              && forall b: nat, c: nat :: Reaches(cfg.i1, Access(n.addr, n.len), b) && Reaches(cfg.i1, Access(n.addr, n.len), c) ==> b == c
  {
    hide Reaches, IsIrNoX;
    NoXIffOneLine(cfg.i1, cfg.ll, Access(n.addr, n.len));
  }

  // ----- load linked and store conditional

  /** A statement that has no guard and is neither a side exit nor a load linked. */
  predicate Quiet(st: Stmt) {
    st.Plain? || st.IMark? || st.Load? || st.Store? || st.Dirty? || st.Cas? || st.StoreCond?
  }

  ghost function Copies(sts: seq<Stmt>): (r: seq<Out>)
    ensures |r| == |sts| && forall k :: 0 <= k < |sts| ==> r[k] == Orig(sts[k])
  {
    seq(|sts|, k requires 0 <= k < |sts| => Orig(sts[k]))
  }

  lemma ItemQueues(cfg: Config, N: nat, q: Queue, e: Event)
    requires |q.events| < N
    ensures var q' := AddItem(cfg, N, q, Do(e)); q'.out == q.out && |q'.events| <= |q.events| + 1
  {
  }

  /** A quiet statement is copied without helper calls while the queue has room for two events. */
  lemma QuietQueues(cfg: Config, N: nat, q: Queue, n: Inode, st: Stmt)
    requires Quiet(st) && |q.events| + 2 <= N
    ensures var q' := AddStmt(cfg, N, q, n, st);
            q'.out == q.out + [Orig(st)] && |q'.events| <= |q.events| + 2
  {
    hide AddItem, AddItems, StmtItems, Quiet;
    QuietItems(cfg, n, st);
    TwoItemsQueue(cfg, N, q, StmtItems(cfg, n, st));
  }

  lemma QuietItems(cfg: Config, n: Inode, st: Stmt)
    requires Quiet(st)
    ensures var items := StmtItems(cfg, n, st); |items| <= 2 && forall k :: 0 <= k < |items| ==> items[k].Do?
  {
    hide IrEvent, Clipped;
  }

  lemma TwoItemsQueue(cfg: Config, N: nat, q: Queue, items: seq<Item>)
    requires |items| <= 2 && |q.events| + 2 <= N && forall k :: 0 <= k < |items| ==> items[k].Do?
    ensures var q' := AddItems(cfg, N, q, items); q'.out == q.out && |q'.events| <= |q.events| + 2
  {
    hide AddItem;
    if |items| == 1 {
      assert Front(items) == [];
      ItemQueues(cfg, N, q, items[0].e);
    } else if |items| == 2 {
      assert Front(items) == [items[0]] && Front([items[0]]) == [];
      assert AddItems(cfg, N, q, [items[0]]) == AddItem(cfg, N, q, items[0]);
      ItemQueues(cfg, N, q, items[0].e);
      ItemQueues(cfg, N, AddItem(cfg, N, q, items[0]), items[1].e);
    }
  }

  /** After a load linked the queue is empty. */
  lemma LoadLinkedFlushes(cfg: Config, N: nat, pre: seq<Stmt>, ll: Stmt)
    requires Started(pre) && ll.LoadLinked?
    ensures Started(pre + [ll]) && AddBody(cfg, N, pre + [ll]).events == []
  {
    hide FlushCalls;
    var body := pre + [ll];
    assert Front(body) == pre && Last(body) == ll;
    assert StmtItems(cfg, Current(cfg, body), ll) == ReadItem(cfg, Current(cfg, body), ll.size, ll.ea) + [Cut];
    assert Last(StmtItems(cfg, Current(cfg, body), ll)) == Cut;
  }

  /** No helper call comes between a load linked and the store conditional that follows it after a few quiet
      statements: what was queued for the load is emitted before it, what is queued for the rest after it. */
  lemma {:induction false} NothingBetween(cfg: Config, N: nat, pre: seq<Stmt>, ll: Stmt, mid: seq<Stmt>)
    requires Started(pre) && ll.LoadLinked? && 2 * |mid| <= N && forall k :: 0 <= k < |mid| ==> Quiet(mid[k])
    ensures var q := AddBody(cfg, N, pre + [ll] + mid);
            q.out == AddBody(cfg, N, pre + [ll]).out + Copies(mid) && |q.events| <= 2 * |mid|
    ensures Started(pre + [ll] + mid)
    decreases |mid|
  {
    hide AddStmt, Quiet;
    var body := pre + [ll] + mid;
    LoadLinkedFlushes(cfg, N, pre, ll);
    if mid == [] {
      assert body == pre + [ll];
    } else {
      NothingBetween(cfg, N, pre, ll, Front(mid));
      assert Front(body) == pre + [ll] + Front(mid) && Last(body) == Last(mid);
      QuietQueues(cfg, N, AddBody(cfg, N, Front(body)), Current(cfg, body), Last(mid));
      assert Copies(mid) == Copies(Front(mid)) + [Orig(Last(mid))];
    }
  }
}
