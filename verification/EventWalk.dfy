/** The walk over a block (cg_instrument) on values: the queue of outstanding events, the instrumented
    block it produces, and the proof that running that block simulates the events one at a time. */
module EventWalk {
  import opened Options
  import opened Words
  import opened Lru
  import opened CacheModel
  import opened Hierarchy
  import opened EventModel

  // ----- the events of a block, independently of any queue

  /** What a statement stands for: an event, a guarded data event, a point where the block may be
      left, or a point where nothing may be outstanding. */
  datatype Item = Do(e: Event) | Only(e: Event, guard: Atom) | Leave(guard: Atom) | Cut

  ghost function Marks(body: seq<Stmt>): nat {
    if body == [] then 0 else Marks(Front(body)) + if Last(body).IMark? then 1 else 0
  }

  /** The body has an instruction mark; the statements before the first one are only copied. */
  ghost predicate Started(body: seq<Stmt>) {
    Marks(body) > 0
  }

  /** The instruction an IMark introduces; an instruction that could not be decoded counts as the
      shortest one. */
  function NewInode(cfg: Config, id: nat, addr: nat, len: nat): Inode {
    Inode(id, addr, if len == 0 then cfg.minInstr else len, cfg.line(addr))
  }

  /** The instruction the last statement of body belongs to. */
  ghost function Current(cfg: Config, body: seq<Stmt>): Inode
    requires Started(body)
  {
    if Last(body).IMark? then NewInode(cfg, Marks(Front(body)), Last(body).addr, Last(body).len)
    else Current(cfg, Front(body))
  }

  function IrEvent(cfg: Config, n: Inode): Event {
    if IsIrNoX(cfg.i1, cfg.ll, Access(n.addr, n.len)) then IrNoX(n) else IrGen(n)
  }

  function Clipped(cfg: Config, size: nat): nat {
    if size > cfg.minLineSize then cfg.minLineSize else size
  }

  function ReadItem(cfg: Config, n: Inode, size: nat, ea: Atom): seq<Item> {
    if cfg.cacheSim then [Do(Dr(n, size, ea))] else []
  }

  function WriteItem(cfg: Config, n: Inode, size: nat, ea: Atom): seq<Item> {
    if cfg.cacheSim then [Do(Dw(n, size, ea))] else []
  }

  /** The side exit goes to the next instruction: the optimiser has turned the branch round. */
  predicate Inverted(n: Inode, dst: nat) {
    (n.addr + n.len) % WORD == dst
  }

  function BranchItem(cfg: Config, n: Inode, taken: Taken): seq<Item> {
    if cfg.branchSim then [Do(Bc(n, taken))] else []
  }

  /** The items of one statement of instruction n, in order; leaving the block is added separately. */
  function StmtItems(cfg: Config, n: Inode, st: Stmt): seq<Item> {
    match st
    case Plain => []
    case IMark(_, _) => [Do(IrEvent(cfg, n))]
    case Load(size, ea) => ReadItem(cfg, n, size, ea)
    case Store(size, ea) => WriteItem(cfg, n, size, ea)
    case LoadG(size, ea, guard) => if cfg.cacheSim then [Only(Dr(n, size, ea), guard)] else []
    case StoreG(size, ea, guard) => if cfg.cacheSim then [Only(Dw(n, size, ea), guard)] else []
    case Dirty(fx, size, ea) =>
      (if fx == Read || fx == Modify then ReadItem(cfg, n, Clipped(cfg, size), ea) else [])
      + (if fx == Write || fx == Modify then WriteItem(cfg, n, Clipped(cfg, size), ea) else [])
    case Cas(size, ea) => ReadItem(cfg, n, Clipped(cfg, size), ea) + WriteItem(cfg, n, Clipped(cfg, size), ea)
    case LoadLinked(size, ea) => ReadItem(cfg, n, size, ea) + [Cut]
    case StoreCond(size, ea) => WriteItem(cfg, n, size, ea)
    case Exit(guard, guestBranch, dst) =>
      (if guestBranch then BranchItem(cfg, n, Taken(guard, Inverted(n, dst))) else []) + [Cut]
  }

  function LeaveItem(st: Stmt): seq<Item> {
    if st.Exit? then [Leave(st.guard)] else []
  }

  ghost function BodyItems(cfg: Config, body: seq<Stmt>): seq<Item> {
    if body == [] then []
    else if !Started(body) then BodyItems(cfg, Front(body)) + LeaveItem(Last(body))
    else BodyItems(cfg, Front(body)) + StmtItems(cfg, Current(cfg, body), Last(body)) + LeaveItem(Last(body))
  }

  function EndItems(cfg: Config, n: Inode, next: Next): seq<Item> {
    match next
    case Known => []
    case Unknown(dst) => if cfg.branchSim then [Do(Bi(n, dst))] else []
  }

  ghost function BlockItems(cfg: Config, body: seq<Stmt>, next: Next): seq<Item>
    requires Started(body)
  {
    BodyItems(cfg, body) + EndItems(cfg, Current(cfg, body), next) + [Cut]
  }

  /** A write that directly follows a read of the same bytes by the same instruction makes it a modify. */
  ghost function Push(items: seq<Item>, it: Item): seq<Item> {
    if it.Do? && it.e.Dw? && items != [] && Last(items) == Do(Dr(it.e.inode, it.e.szB, it.e.ea))
    then Front(items) + [Do(Dm(it.e.inode, it.e.szB, it.e.ea))]
    else items + [it]
  }

  ghost function Merged(items: seq<Item>): seq<Item> {
    if items == [] then [] else Push(Merged(Front(items)), Last(items))
  }

  // ----- running items, and running an instrumented block

  datatype Run = Run(st: State, left: bool)

  ghost predicate FittedRun(cfg: Config, r: Run) {
    Fitted(cfg, r.st)
  }

  ghost function RunItem(cfg: Config, env: Env, r: Run, it: Item): (r': Run)
    requires FittedRun(cfg, r)
    ensures FittedRun(cfg, r')
  {
    if r.left then r
    else match it
      case Do(e) => Run(ExecEvent(cfg, env, r.st, e), false)
      case Only(e, guard) => if Eval(env, guard) != 0 then Run(ExecEvent(cfg, env, r.st, e), false) else r
      case Leave(guard) => Run(r.st, Eval(env, guard) != 0)
      case Cut => r
  }

  ghost function RunItems(cfg: Config, env: Env, r: Run, items: seq<Item>): (r': Run)
    requires FittedRun(cfg, r)
    ensures FittedRun(cfg, r')
    decreases |items|
  {
    if items == [] then r else RunItem(cfg, env, RunItems(cfg, env, r, Front(items)), Last(items))
  }

  ghost function RunStmt(cfg: Config, env: Env, r: Run, o: Out): (r': Run)
    requires FittedRun(cfg, r)
    ensures FittedRun(cfg, r')
  {
    if r.left then r
    else match o
      case Orig(st) => if st.Exit? then Run(r.st, Eval(env, st.guard) != 0) else r
      case Helper(c) => Run(ExecCall(cfg, env, r.st, c), false)
      case Guarded(c, guard) => if Eval(env, guard) != 0 then Run(ExecCall(cfg, env, r.st, c), false) else r
  }

  ghost function RunOut(cfg: Config, env: Env, r: Run, out: seq<Out>): (r': Run)
    requires FittedRun(cfg, r)
    ensures FittedRun(cfg, r')
    decreases |out|
  {
    if out == [] then r else RunStmt(cfg, env, RunOut(cfg, env, r, Front(out)), Last(out))
  }

  // ----- the queue

  datatype Queue = Queue(events: seq<Event>, out: seq<Out>)

  function Helpers(cs: seq<Call>): (r: seq<Out>)
    ensures |r| == |cs| && forall k :: 0 <= k < |cs| ==> r[k] == Helper(cs[k])
  {
    seq(|cs|, k requires 0 <= k < |cs| => Helper(cs[k]))
  }

  function Flush(cfg: Config, q: Queue): Queue {
    Queue([], q.out + Helpers(FlushCalls(cfg, q.events)))
  }

  /** An event goes to the end of the queue, which is flushed first when it is full. */
  function Add(cfg: Config, N: nat, q: Queue, e: Event): Queue {
    var q' := if |q.events| == N then Flush(cfg, q) else q;
    q'.(events := q'.events + [e])
  }

  /** A write merges with a matching read at the end of the queue. */
  function AddDw(cfg: Config, N: nat, q: Queue, e: Event): Queue
    requires e.Dw?
  {
    if q.events != [] && q.events[|q.events| - 1] == Dr(e.inode, e.szB, e.ea)
    then q.(events := q.events[..|q.events| - 1] + [Dm(e.inode, e.szB, e.ea)])
    else Add(cfg, N, q, e)
  }

  function AddItem(cfg: Config, N: nat, q: Queue, it: Item): Queue {
    match it
    case Do(e) => if e.Dw? then AddDw(cfg, N, q, e) else Add(cfg, N, q, e)
    case Only(e, guard) =>
      var q' := Flush(cfg, q);
      if e.Dr? || e.Dw? then q'.(out := q'.out + [Guarded(DataCall(e), guard)]) else q'
    case Leave(_) => q
    case Cut => Flush(cfg, q)
  }

  function DataCall(e: Event): Call
    requires e.Dr? || e.Dw?
  {
    if e.Dw? then Log0Ir1Dw(e.inode, e.ea, e.szB) else Log0Ir1Dr(e.inode, e.ea, e.szB)
  }

  ghost function AddItems(cfg: Config, N: nat, q: Queue, items: seq<Item>): Queue
    decreases |items|
  {
    if items == [] then q else AddItem(cfg, N, AddItems(cfg, N, q, Front(items)), Last(items))
  }

  /** One statement: its events are queued, then it is copied. */
  ghost function AddStmt(cfg: Config, N: nat, q: Queue, n: Inode, st: Stmt): Queue {
    Copied(AddItems(cfg, N, q, StmtItems(cfg, n, st)), st)
  }

  function Copied(q: Queue, st: Stmt): Queue {
    q.(out := q.out + [Orig(st)])
  }

  ghost function AddBody(cfg: Config, N: nat, body: seq<Stmt>): Queue {
    if body == [] then Queue([], [])
    else if !Started(body) then Copied(AddBody(cfg, N, Front(body)), Last(body))
    else AddStmt(cfg, N, AddBody(cfg, N, Front(body)), Current(cfg, body), Last(body))
  }

  /** cg_instrument: the whole block, with a last flush. */
  ghost function Instrumented(cfg: Config, N: nat, body: seq<Stmt>, next: Next): seq<Out>
    requires Started(body)
  {
    Flush(cfg, AddItems(cfg, N, AddBody(cfg, N, body), EndItems(cfg, Current(cfg, body), next))).out
  }

  // ----- the invariant of the walk

  /** An item of instruction n that the walk can produce. */
  ghost predicate ItemOf(cfg: Config, n: Inode, it: Item) {
    match it
    case Do(e) =>
      && e.inode == n && (IsData(e) ==> cfg.cacheSim)
      && (e.IrNoX? ==> IsIrNoX(cfg.i1, cfg.ll, Access(n.addr, n.len)))
    case Only(e, _) => (e.Dr? || e.Dw?) && e.inode == n && cfg.cacheSim
    case Leave(_) => false
    case Cut => true
  }

  /** What is still queued is the end of the merged list. */
  ghost predicate Tail(events: seq<Event>, merged: seq<Item>) {
    if events == [] then merged == [] || !Last(merged).Do?
    else merged != [] && Last(merged) == Do(Last(events))
  }

  ghost predicate Sound(cfg: Config, n: Inode, q: Queue, merged: seq<Item>) {
    && Coherent(cfg, q.events)
    && (q.events != [] && IsIr(Last(q.events)) ==> Last(q.events).inode == n)
    && Tail(q.events, merged)
  }

  /** Running what was emitted and then what is still queued is running the merged events. */
  ghost predicate Simulates(cfg: Config, env: Env, r: Run, q: Queue, merged: seq<Item>)
    requires FittedRun(cfg, r)
  {
    Resume(cfg, env, RunOut(cfg, env, r, q.out), q.events) == RunItems(cfg, env, r, merged)
  }

  ghost function Resume(cfg: Config, env: Env, r: Run, events: seq<Event>): (r': Run)
    requires FittedRun(cfg, r)
    ensures FittedRun(cfg, r')
  {
    if r.left then r else Run(ExecEvents(cfg, env, r.st, events), false)
  }

  lemma {:induction false} RunHelpers(cfg: Config, env: Env, r: Run, out: seq<Out>, cs: seq<Call>)
    requires FittedRun(cfg, r)
    ensures var r1 := RunOut(cfg, env, r, out);
            RunOut(cfg, env, r, out + Helpers(cs)) == if r1.left then r1 else Run(ExecCalls(cfg, env, r1.st, cs), false)
    decreases |cs|
  {
    if cs == [] {
      assert out + Helpers(cs) == out;
    } else {
      var o := out + [Helper(cs[0])];
      assert Front(o) == out && Last(o) == Helper(cs[0]);
      assert out + Helpers(cs) == o + Helpers(cs[1..]);
      RunHelpers(cfg, env, r, o, cs[1..]);
    }
  }

  /** A flush leaves the meaning of out and queue together as it was. */
  lemma FlushSimulates(cfg: Config, env: Env, r: Run, q: Queue)
    requires FittedRun(cfg, r) && Coherent(cfg, q.events)
    ensures Resume(cfg, env, RunOut(cfg, env, r, Flush(cfg, q).out), [])
         == Resume(cfg, env, RunOut(cfg, env, r, q.out), q.events)
    ensures RunOut(cfg, env, r, Flush(cfg, q).out) == Resume(cfg, env, RunOut(cfg, env, r, q.out), q.events)
  {
    var r1 := RunOut(cfg, env, r, q.out);
    RunHelpers(cfg, env, r, q.out, FlushCalls(cfg, q.events));
    if !r1.left {
      FlushMeans(cfg, env, r1.st, q.events);
    }
  }

  lemma ResumeAppend(cfg: Config, env: Env, r: Run, events: seq<Event>, e: Event)
    requires FittedRun(cfg, r)
    ensures Resume(cfg, env, r, events + [e]) == RunItem(cfg, env, Resume(cfg, env, r, events), Do(e))
  {
    if !r.left {
      ExecEventsConcat(cfg, env, r.st, events, [e]);
      ExecOne(cfg, env, ExecEvents(cfg, env, r.st, events), e);
    }
  }

  lemma RunAppend(cfg: Config, env: Env, r: Run, items: seq<Item>, it: Item)
    requires FittedRun(cfg, r)
    ensures RunItems(cfg, env, r, items + [it]) == RunItem(cfg, env, RunItems(cfg, env, r, items), it)
  {
    assert Front(items + [it]) == items && Last(items + [it]) == it;
  }

  lemma OutAppend(cfg: Config, env: Env, r: Run, out: seq<Out>, o: Out)
    requires FittedRun(cfg, r)
    ensures RunOut(cfg, env, r, out + [o]) == RunStmt(cfg, env, RunOut(cfg, env, r, out), o)
  {
    assert Front(out + [o]) == out && Last(out + [o]) == o;
  }

  lemma CoherentAppend(cfg: Config, q: seq<Event>, e: Event)
    requires Coherent(cfg, q)
    requires (e.IrNoX? ==> IsIrNoX(cfg.i1, cfg.ll, Access(e.inode.addr, e.inode.len))) && (IsData(e) ==> cfg.cacheSim)
    requires q != [] && IsIr(Last(q)) && IsData(e) ==> e.inode == Last(q).inode
    ensures Coherent(cfg, q + [e])
  {
  }

  /** What the queue keeps, whatever it means at run time. */
  lemma ItemKeepsSound(cfg: Config, N: nat, n0: Inode, n: Inode, q: Queue, merged: seq<Item>, it: Item)
    requires N > 0 && Sound(cfg, n0, q, merged) && ItemOf(cfg, n, it) && (n0 == n || (it.Do? && IsIr(it.e)))
    ensures Sound(cfg, n, AddItem(cfg, N, q, it), Push(merged, it))
  {
    if it.Do? {
      if it.e.Dw? && q.events != [] && Last(q.events) == Dr(it.e.inode, it.e.szB, it.e.ea) {
        CoherentReplace(cfg, q.events, it.e);
      } else {
        CoherentAppend(cfg, if |q.events| == N then [] else q.events, it.e);
      }
    }
  }

  lemma CoherentReplace(cfg: Config, q: seq<Event>, e: Event)
    requires Coherent(cfg, q) && e.Dw? && q != [] && Last(q) == Dr(e.inode, e.szB, e.ea)
    ensures Coherent(cfg, Front(q) + [Dm(e.inode, e.szB, e.ea)])
  {
  }

  lemma MergedAppend(items: seq<Item>, it: Item)
    ensures Merged(items + [it]) == Push(Merged(items), it)
  {
    assert Front(items + [it]) == items && Last(items + [it]) == it;
  }

  lemma AddOne(cfg: Config, N: nat, q: Queue, it: Item)
    ensures AddItems(cfg, N, q, []) == q
    ensures AddItems(cfg, N, q, [it]) == AddItem(cfg, N, q, it)
  {
    assert Front([it]) == [];
  }

  lemma CutEmpties(cfg: Config, N: nat, q: Queue, items: seq<Item>)
    requires items != [] && Last(items) == Cut
    ensures AddItems(cfg, N, q, items).events == []
  {
  }

  lemma StmtItemsAreItems(cfg: Config, n: Inode, st: Stmt)
    ensures forall k :: 0 <= k < |StmtItems(cfg, n, st)| ==> ItemOf(cfg, n, StmtItems(cfg, n, st)[k])
  {
  }

  lemma {:induction false} ItemsKeepSound(cfg: Config, N: nat, n: Inode, q: Queue, before: seq<Item>, items: seq<Item>)
    requires N > 0 && Sound(cfg, n, q, Merged(before))
    requires forall k :: 0 <= k < |items| ==> ItemOf(cfg, n, items[k])
    ensures Sound(cfg, n, AddItems(cfg, N, q, items), Merged(before + items))
    decreases |items|
  {
    hide Sound, Merged, Push, AddItem, ItemOf;
    if items == [] {
      assert before + items == before;
    } else {
      ItemsKeepSound(cfg, N, n, q, before, Front(items));
      ItemKeepsSound(cfg, N, n, n, AddItems(cfg, N, q, Front(items)), Merged(before + Front(items)), Last(items));
      MergedAppend(before + Front(items), Last(items));
      assert before + items == before + Front(items) + [Last(items)];
    }
  }

  lemma MarkKeepsSound(cfg: Config, N: nat, n0: Inode, n: Inode, q: Queue, before: seq<Item>, st: Stmt)
    requires N > 0 && Sound(cfg, n0, q, Merged(before)) && st.IMark?
    ensures Sound(cfg, n, AddItems(cfg, N, q, StmtItems(cfg, n, st)), Merged(before + StmtItems(cfg, n, st)))
  {
    hide Sound, Merged, Push, AddItem;
    var it := Do(IrEvent(cfg, n));
    AddOne(cfg, N, q, it);
    MergedAppend(before, it);
    ItemKeepsSound(cfg, N, n0, n, q, Merged(before), it);
  }

  /** The copied statement, and where it is an exit, the point where the block may be left. */
  lemma CopyKeepsSound(cfg: Config, n: Inode, q: Queue, after: seq<Item>, st: Stmt)
    requires Sound(cfg, n, q, Merged(after)) && (st.Exit? ==> q.events == [])
    ensures Sound(cfg, n, q.(out := q.out + [Orig(st)]), Merged(after + LeaveItem(st)))
  {
    hide Merged;
    if st.Exit? {
      MergedAppend(after, Leave(st.guard));
    } else {
      assert after + [] == after;
    }
  }

  /** What a statement adds to the queue, before it is copied. */
  lemma EventsKeepSound(cfg: Config, N: nat, n0: Inode, n: Inode, q: Queue, before: seq<Item>, st: Stmt)
    requires N > 0 && Sound(cfg, n0, q, Merged(before)) && (st.IMark? || n0 == n)
    ensures Sound(cfg, n, AddItems(cfg, N, q, StmtItems(cfg, n, st)), Merged(before + StmtItems(cfg, n, st)))
    ensures st.Exit? ==> AddItems(cfg, N, q, StmtItems(cfg, n, st)).events == []
  {
    hide Sound, Merged;
    if st.IMark? {
      MarkKeepsSound(cfg, N, n0, n, q, before, st);
    } else {
      StmtItemsAreItems(cfg, n, st);
      ItemsKeepSound(cfg, N, n, q, before, StmtItems(cfg, n, st));
    }
    if st.Exit? {
      CutEmpties(cfg, N, q, StmtItems(cfg, n, st));
    }
  }

  lemma StmtKeepsSound(cfg: Config, N: nat, n0: Inode, n: Inode, q: Queue, before: seq<Item>, st: Stmt)
    requires N > 0 && Sound(cfg, n0, q, Merged(before)) && (st.IMark? || n0 == n)
    ensures Sound(cfg, n, AddStmt(cfg, N, q, n, st), Merged(before + StmtItems(cfg, n, st) + LeaveItem(st)))
  {
    hide Sound, Merged, StmtItems;
    EventsKeepSound(cfg, N, n0, n, q, before, st);
    CopyKeepsSound(cfg, n, AddItems(cfg, N, q, StmtItems(cfg, n, st)), before + StmtItems(cfg, n, st), st);
  }

  // ----- the meaning of the walk

  /** Queueing an event of the current instruction, or the first one of the next. */
  lemma AddKeeps(cfg: Config, N: nat, env: Env, r: Run, q: Queue, merged: seq<Item>, e: Event)
    requires FittedRun(cfg, r) && Coherent(cfg, q.events) && Simulates(cfg, env, r, q, merged)
    ensures Simulates(cfg, env, r, Add(cfg, N, q, e), merged + [Do(e)])
  {
    hide RunItems, RunItem, RunOut, ExecEvents, Coherent, FlushCalls;
    var q' := if |q.events| == N then Flush(cfg, q) else q;
    if |q.events| == N {
      FlushSimulates(cfg, env, r, q);
    }
    ResumeAppend(cfg, env, RunOut(cfg, env, r, q'.out), q'.events, e);
    RunAppend(cfg, env, r, merged, Do(e));
  }

  /** Turning the queued read into a modify. */
  lemma MergeKeeps(cfg: Config, env: Env, r: Run, n: Inode, q: Queue, merged: seq<Item>, e: Event)
    requires FittedRun(cfg, r) && Sound(cfg, n, q, merged) && Simulates(cfg, env, r, q, merged)
    requires e.Dw? && q.events != [] && Last(q.events) == Dr(e.inode, e.szB, e.ea)
    ensures Simulates(cfg, env, r, q.(events := Front(q.events) + [Dm(e.inode, e.szB, e.ea)]), Push(merged, Do(e)))
  {
    hide RunItems, RunOut, Resume, Coherent, DataRead;
    var d, m := Dr(e.inode, e.szB, e.ea), Dm(e.inode, e.szB, e.ea);
    assert q.events == Front(q.events) + [d] && merged == Front(merged) + [Do(d)];
    var r1 := RunOut(cfg, env, r, q.out);
    ResumeAppend(cfg, env, r1, Front(q.events), d);
    ResumeAppend(cfg, env, r1, Front(q.events), m);
    MergedPair(cfg, env, r, merged, e);
    ModifyReadsAlike(cfg, env, Resume(cfg, env, r1, Front(q.events)), e);
  }

  /** A modify is simulated as a read. */
  lemma ModifyReadsAlike(cfg: Config, env: Env, r: Run, e: Event)
    requires FittedRun(cfg, r) && e.Dw?
    ensures RunItem(cfg, env, r, Do(Dm(e.inode, e.szB, e.ea))) == RunItem(cfg, env, r, Do(Dr(e.inode, e.szB, e.ea)))
  {
  }

  lemma FlushKeeps(cfg: Config, env: Env, r: Run, q: Queue, merged: seq<Item>)
    requires FittedRun(cfg, r) && Coherent(cfg, q.events) && Simulates(cfg, env, r, q, merged)
    ensures Simulates(cfg, env, r, Flush(cfg, q), merged + [Cut])
  {
    hide RunItems, RunOut, Coherent, FlushCalls;
    FlushSimulates(cfg, env, r, q);
    RunAppend(cfg, env, r, merged, Cut);
  }

  lemma GuardedKeeps(cfg: Config, env: Env, r: Run, q: Queue, merged: seq<Item>, e: Event, guard: Atom)
    requires FittedRun(cfg, r) && Coherent(cfg, q.events) && Simulates(cfg, env, r, q, merged)
    requires e.Dr? || e.Dw?
    ensures Simulates(cfg, env, r, Queue([], Flush(cfg, q).out + [Guarded(DataCall(e), guard)]), merged + [Only(e, guard)])
  {
    hide DataRead, DataWrite, RunItems, RunOut, FlushCalls, Coherent;
    FlushSimulates(cfg, env, r, q);
    OutAppend(cfg, env, r, Flush(cfg, q).out, Guarded(DataCall(e), guard));
    RunAppend(cfg, env, r, merged, Only(e, guard));
  }

  lemma ItemKeeps(cfg: Config, N: nat, env: Env, r: Run, n: Inode, q: Queue, merged: seq<Item>, it: Item)
    requires FittedRun(cfg, r) && Sound(cfg, n, q, merged) && Simulates(cfg, env, r, q, merged)
    requires !it.Leave? && (it.Only? ==> it.e.Dr? || it.e.Dw?)
    ensures Simulates(cfg, env, r, AddItem(cfg, N, q, it), Push(merged, it))
  {
    hide Simulates, Coherent, Add, FlushCalls;
    match it {
      case Do(e) =>
        if e.Dw? && q.events != [] && Last(q.events) == Dr(e.inode, e.szB, e.ea) {
          MergeKeeps(cfg, env, r, n, q, merged, e);
        } else {
          AddKeeps(cfg, N, env, r, q, merged, e);
        }
      case Only(e, guard) =>
        GuardedKeeps(cfg, env, r, q, merged, e, guard);
      case Leave(_) =>
      case Cut =>
        FlushKeeps(cfg, env, r, q, merged);
    }
  }

  lemma {:induction false} ItemsKeep(cfg: Config, N: nat, env: Env, r: Run, n: Inode, q: Queue, before: seq<Item>, items: seq<Item>)
    requires FittedRun(cfg, r) && N > 0 && Sound(cfg, n, q, Merged(before)) && Simulates(cfg, env, r, q, Merged(before))
    requires forall k :: 0 <= k < |items| ==> ItemOf(cfg, n, items[k])
    ensures Simulates(cfg, env, r, AddItems(cfg, N, q, items), Merged(before + items))
    decreases |items|
  {
    hide Sound, Simulates, Merged, Push, AddItem;
    if items == [] {
      assert before + items == before;
    } else {
      ItemsKeep(cfg, N, env, r, n, q, before, Front(items));
      ItemsKeepSound(cfg, N, n, q, before, Front(items));
      ItemKeeps(cfg, N, env, r, n, AddItems(cfg, N, q, Front(items)), Merged(before + Front(items)), Last(items));
      MergedAppend(before + Front(items), Last(items));
      assert before + items == before + Front(items) + [Last(items)];
    }
  }

  // ----- statements and blocks

  /** Every statement but an exit is copied without effect on the simulator. */
  lemma CopyKeeps(cfg: Config, env: Env, r: Run, q: Queue, merged: seq<Item>, st: Stmt)
    requires FittedRun(cfg, r) && Simulates(cfg, env, r, q, merged) && !st.Exit?
    ensures Simulates(cfg, env, r, q.(out := q.out + [Orig(st)]), merged)
  {
    hide RunItems, RunOut, Resume;
    OutAppend(cfg, env, r, q.out, Orig(st));
  }

  /** At an exit the queue is empty, so leaving the block there loses no event. */
  lemma ExitKeeps(cfg: Config, env: Env, r: Run, q: Queue, merged: seq<Item>, st: Stmt)
    requires FittedRun(cfg, r) && Simulates(cfg, env, r, q, merged) && st.Exit? && q.events == []
    ensures Simulates(cfg, env, r, q.(out := q.out + [Orig(st)]), merged + [Leave(st.guard)])
  {
    hide RunItems, RunOut;
    OutAppend(cfg, env, r, q.out, Orig(st));
    RunAppend(cfg, env, r, merged, Leave(st.guard));
  }

  /** An IMark starts the next instruction. */
  lemma MarkKeeps(cfg: Config, N: nat, env: Env, r: Run, n0: Inode, n: Inode, q: Queue, before: seq<Item>, st: Stmt)
    requires FittedRun(cfg, r) && Sound(cfg, n0, q, Merged(before)) && Simulates(cfg, env, r, q, Merged(before))
    requires st.IMark?
    ensures Simulates(cfg, env, r, AddItems(cfg, N, q, StmtItems(cfg, n, st)), Merged(before + StmtItems(cfg, n, st)))
  {
    hide Simulates, Merged, Add, Coherent;
    var it := Do(IrEvent(cfg, n));
    assert StmtItems(cfg, n, st) == [it];
    AddOne(cfg, N, q, it);
    MergedAppend(before, it);
    AddKeeps(cfg, N, env, r, q, Merged(before), it.e);
  }

  lemma StmtKeeps(cfg: Config, N: nat, env: Env, r: Run, n0: Inode, n: Inode, q: Queue, before: seq<Item>, st: Stmt)
    requires FittedRun(cfg, r) && N > 0 && Sound(cfg, n0, q, Merged(before)) && Simulates(cfg, env, r, q, Merged(before))
    requires st.IMark? || n0 == n
    ensures Simulates(cfg, env, r, AddStmt(cfg, N, q, n, st), Merged(before + StmtItems(cfg, n, st) + LeaveItem(st)))
  {
    hide Sound, Simulates, Merged, AddItems, StmtItems;
    var items := StmtItems(cfg, n, st);
    var q', after := AddItems(cfg, N, q, items), before + items;
    if st.IMark? {
      MarkKeeps(cfg, N, env, r, n0, n, q, before, st);
    } else {
      StmtItemsAreItems(cfg, n, st);
      ItemsKeep(cfg, N, env, r, n, q, before, items);
    }
    if st.Exit? {
      EventsKeepSound(cfg, N, n0, n, q, before, st);
      ExitKeeps(cfg, env, r, q', Merged(after), st);
      MergedAppend(after, Leave(st.guard));
      LeaveIsNotMerged(Merged(after), st.guard);
    } else {
      CopyKeeps(cfg, env, r, q', Merged(after), st);
      assert after + [] == after;
    }
  }

  lemma LeaveIsNotMerged(items: seq<Item>, guard: Atom)
    ensures Push(items, Leave(guard)) == items + [Leave(guard)]
  {
  }

  /** A statement before the first instruction mark. */
  lemma PreambleKeeps(cfg: Config, env: Env, r: Run, n: Inode, q: Queue, before: seq<Item>, st: Stmt)
    requires FittedRun(cfg, r) && q.events == [] && Sound(cfg, n, q, Merged(before)) && Simulates(cfg, env, r, q, Merged(before))
    ensures Sound(cfg, n, Copied(q, st), Merged(before + LeaveItem(st)))
    ensures Simulates(cfg, env, r, Copied(q, st), Merged(before + LeaveItem(st)))
  {
    hide Sound, Simulates, Merged;
    CopyKeepsSound(cfg, n, q, before, st);
    if st.Exit? {
      ExitKeeps(cfg, env, r, q, Merged(before), st);
      MergedAppend(before, Leave(st.guard));
      LeaveIsNotMerged(Merged(before), st.guard);
    } else {
      CopyKeeps(cfg, env, r, q, Merged(before), st);
      assert before + [] == before;
    }
  }

  lemma {:induction false} BodyKeeps(cfg: Config, N: nat, env: Env, r: Run, body: seq<Stmt>, n: Inode)
    requires FittedRun(cfg, r) && N > 0 && (Started(body) ==> n == Current(cfg, body))
    ensures Sound(cfg, n, AddBody(cfg, N, body), Merged(BodyItems(cfg, body)))
    ensures Simulates(cfg, env, r, AddBody(cfg, N, body), Merged(BodyItems(cfg, body)))
    ensures !Started(body) ==> AddBody(cfg, N, body).events == []
    decreases |body|
  {
    hide Sound, Simulates, Merged, AddItems, StmtItems;
    if body == [] {
      EmptyIsSound(cfg, N, n);
      EmptySimulates(cfg, env, r);
    } else {
      var q, before := AddBody(cfg, N, Front(body)), BodyItems(cfg, Front(body));
      var n0 := if Started(Front(body)) then Current(cfg, Front(body)) else n;
      BodyKeeps(cfg, N, env, r, Front(body), n0);
      if Started(body) {
        StmtKeepsSound(cfg, N, n0, n, q, before, Last(body));
        StmtKeeps(cfg, N, env, r, n0, n, q, before, Last(body));
      } else {
        PreambleKeeps(cfg, env, r, n, q, before, Last(body));
      }
    }
  }

  lemma EmptyIsSound(cfg: Config, N: nat, n: Inode)
    ensures Marks([]) == 0 && AddBody(cfg, N, []) == Queue([], []) && BodyItems(cfg, []) == []
    ensures Sound(cfg, n, Queue([], []), Merged([]))
  {
  }

  lemma EmptySimulates(cfg: Config, env: Env, r: Run)
    requires FittedRun(cfg, r)
    ensures Simulates(cfg, env, r, Queue([], []), Merged([]))
  {
  }

  /** Instrumentation preserves meaning: for every block, every capacity of the queue and every
      execution, side exits included, the instrumented block leaves the same caches, predictors and
      counters as the merged events of the block, one at a time. */
  lemma InstrumentationMeans(cfg: Config, N: nat, env: Env, r: Run, body: seq<Stmt>, next: Next)
    requires FittedRun(cfg, r) && N > 0 && Started(body)
    ensures RunOut(cfg, env, r, Instrumented(cfg, N, body, next)) == RunItems(cfg, env, r, Merged(BlockItems(cfg, body, next)))
  {
    BodyKeeps(cfg, N, env, r, body, Current(cfg, body));
    EndKeeps(cfg, N, env, r, Current(cfg, body), AddBody(cfg, N, body), BodyItems(cfg, body), next);
  }

  lemma EndKeeps(cfg: Config, N: nat, env: Env, r: Run, n: Inode, q: Queue, before: seq<Item>, next: Next)
    requires FittedRun(cfg, r) && N > 0 && Sound(cfg, n, q, Merged(before)) && Simulates(cfg, env, r, q, Merged(before))
    ensures RunOut(cfg, env, r, Flush(cfg, AddItems(cfg, N, q, EndItems(cfg, n, next))).out)
         == RunItems(cfg, env, r, Merged(before + EndItems(cfg, n, next) + [Cut]))
  {
    hide Sound, Simulates, Merged, RunItems, RunOut, AddItems, Flush;
    var items := EndItems(cfg, n, next);
    ItemsKeep(cfg, N, env, r, n, q, before, items);
    ItemsKeepSound(cfg, N, n, q, before, items);
    LastFlush(cfg, env, r, n, AddItems(cfg, N, q, items), before + items);
  }

  lemma LastFlush(cfg: Config, env: Env, r: Run, n: Inode, q: Queue, items: seq<Item>)
    requires FittedRun(cfg, r) && Sound(cfg, n, q, Merged(items)) && Simulates(cfg, env, r, q, Merged(items))
    ensures RunOut(cfg, env, r, Flush(cfg, q).out) == RunItems(cfg, env, r, Merged(items + [Cut]))
  {
    hide RunItems, RunOut, Flush, Merged;
    FlushSimulates(cfg, env, r, q);
    MergedAppend(items, Cut);
    RunAppend(cfg, env, r, Merged(items), Cut);
  }

  /** So the capacity of the queue does not matter: N_EVENTS is a matter of cost only. */
  lemma CapacityIsIrrelevant(cfg: Config, N: nat, N': nat, env: Env, r: Run, body: seq<Stmt>, next: Next)
    requires FittedRun(cfg, r) && N > 0 && N' > 0 && Started(body)
    ensures RunOut(cfg, env, r, Instrumented(cfg, N, body, next)) == RunOut(cfg, env, r, Instrumented(cfg, N', body, next))
  {
    InstrumentationMeans(cfg, N, env, r, body, next);
    InstrumentationMeans(cfg, N', env, r, body, next);
  }

  // ----- the read/write merge costs nothing but the write count

  ghost predicate SameButWrites(r: Run, r': Run) {
    && r.left == r'.left
    && (r.st.None? <==> r'.st.None?)
    && (r.st.Some? ==> r.st.value == r'.st.value.(writes := r.st.value.writes))
  }

  lemma EventKeepsSame(cfg: Config, env: Env, r: Run, r': Run, e: Event)
    requires FittedRun(cfg, r) && FittedRun(cfg, r') && SameButWrites(r, r') && !r.left
    ensures SameButWrites(Run(ExecEvent(cfg, env, r.st, e), false), Run(ExecEvent(cfg, env, r'.st, e), false))
  {
    hide FetchGen, FetchOnly, DataRead, DataWrite;
    match e {
      case IrNoX(n) => FetchKeepsSame(cfg, r, r', n); FetchOnlyKeepsSame(cfg, r, r', n);
      case IrGen(n) => FetchKeepsSame(cfg, r, r', n); FetchOnlyKeepsSame(cfg, r, r', n);
      case Dr(n, szB, ea) => ReadKeepsSame(cfg, r, r', n, Eval(env, ea), szB);
      case Dm(n, szB, ea) => ReadKeepsSame(cfg, r, r', n, Eval(env, ea), szB);
      case Dw(n, szB, ea) => WriteKeepsSame(cfg, r, r', n, Eval(env, ea), szB);
      case Bc(n, taken) =>
      case Bi(n, dst) =>
    }
  }

  lemma FetchKeepsSame(cfg: Config, r: Run, r': Run, n: Inode)
    requires FittedRun(cfg, r) && FittedRun(cfg, r') && SameButWrites(r, r')
    ensures SameButWrites(Run(FetchGen(cfg, r.st, n), false), Run(FetchGen(cfg, r'.st, n), false))
  {
    if r.st.Some? {
      var s, s' := r.st.value, r'.st.value;
      var e := DoRef(cfg.i1, cfg.ll, s.i1, s.ll, Access(n.addr, n.len));
      assert FetchGen(cfg, r.st, n) == Fetched(cfg, s, n, e);
      assert FetchGen(cfg, r'.st, n) == Fetched(cfg, s', n, e);
    }
  }

  lemma FetchOnlyKeepsSame(cfg: Config, r: Run, r': Run, n: Inode)
    requires FittedRun(cfg, r) && FittedRun(cfg, r') && SameButWrites(r, r')
    ensures SameButWrites(Run(FetchOnly(cfg, r.st, n), false), Run(FetchOnly(cfg, r'.st, n), false))
  {
  }

  lemma ReadKeepsSame(cfg: Config, r: Run, r': Run, n: Inode, addr: nat, szB: nat)
    requires FittedRun(cfg, r) && FittedRun(cfg, r') && SameButWrites(r, r')
    ensures SameButWrites(Run(DataRead(cfg, r.st, n, addr, szB), false), Run(DataRead(cfg, r'.st, n, addr, szB), false))
  {
  }

  lemma WriteKeepsSame(cfg: Config, r: Run, r': Run, n: Inode, addr: nat, szB: nat)
    requires FittedRun(cfg, r) && FittedRun(cfg, r') && SameButWrites(r, r')
    ensures SameButWrites(Run(DataWrite(cfg, r.st, n, addr, szB), false), Run(DataWrite(cfg, r'.st, n, addr, szB), false))
  {
  }

  lemma ItemKeepsSame(cfg: Config, env: Env, r: Run, r': Run, it: Item)
    requires FittedRun(cfg, r) && FittedRun(cfg, r') && SameButWrites(r, r')
    ensures SameButWrites(RunItem(cfg, env, r, it), RunItem(cfg, env, r', it))
  {
    if !r.left && (it.Do? || it.Only?) {
      EventKeepsSame(cfg, env, r, r', it.e);
    }
  }

  /** A write that follows a read of the same bytes adds one to the write count, and nothing else. */
  lemma WriteAfterRead(cfg: Config, env: Env, st: State, n: Inode, szB: nat, ea: Atom)
    requires Fitted(cfg, st) && cfg.d1.Usable()
    ensures var s1 := ExecEvent(cfg, env, st, Dr(n, szB, ea));
            ExecEvent(cfg, env, s1, Dw(n, szB, ea))
            == if s1.None? then None
               else Some(s1.value.(writes := s1.value.writes[n.parent := Writes(s1.value, n.parent) + 1]))
  {
    hide DoRef;
    var s1 := ExecEvent(cfg, env, st, Dr(n, szB, ea));
    if s1.Some? {
      RepeatIsFree(cfg.d1, cfg.ll, st.value.d1, st.value.ll, Access(Eval(env, ea), szB));
      assert s1.value.cc[n.parent := CC(s1.value, n.parent)] == s1.value.cc;
    }
  }

  /** Merging is lossless: the unmerged events leave the same caches, predictors and counters as the
      merged ones, data writes apart. */
  lemma {:induction false} MergeIsLossless(cfg: Config, env: Env, r: Run, items: seq<Item>)
    requires FittedRun(cfg, r) && cfg.d1.Usable()
    ensures SameButWrites(RunItems(cfg, env, r, items), RunItems(cfg, env, r, Merged(items)))
    decreases |items|
  {
    if items != [] {
      var before, it := Front(items), Last(items);
      MergeIsLossless(cfg, env, r, before);
      var r1, r2 := RunItems(cfg, env, r, before), RunItems(cfg, env, r, Merged(before));
      ItemKeepsSame(cfg, env, r1, r2, it);
      if Push(Merged(before), it) == Merged(before) + [it] {
        RunAppend(cfg, env, r, Merged(before), it);
      } else {
        MergedPair(cfg, env, r, Merged(before), it.e);
        PairKeepsSame(cfg, env, r1, RunItems(cfg, env, r, Front(Merged(before))), it.e);
      }
    }
  }

  lemma MergedPair(cfg: Config, env: Env, r: Run, merged: seq<Item>, e: Event)
    requires FittedRun(cfg, r) && e.Dw? && merged != [] && Last(merged) == Do(Dr(e.inode, e.szB, e.ea))
    ensures var r0 := RunItems(cfg, env, r, Front(merged));
            && RunItems(cfg, env, r, merged) == RunItem(cfg, env, r0, Do(Dr(e.inode, e.szB, e.ea)))
            && RunItems(cfg, env, r, Push(merged, Do(e))) == RunItem(cfg, env, r0, Do(Dr(e.inode, e.szB, e.ea)))
  {
    RunAppend(cfg, env, r, Front(merged), Do(Dm(e.inode, e.szB, e.ea)));
  }

  lemma PairKeepsSame(cfg: Config, env: Env, r1: Run, r0: Run, e: Event)
    requires FittedRun(cfg, r1) && FittedRun(cfg, r0) && cfg.d1.Usable() && e.Dw?
    requires SameButWrites(r1, RunItem(cfg, env, r0, Do(Dr(e.inode, e.szB, e.ea))))
    ensures SameButWrites(RunItem(cfg, env, r1, Do(e)), RunItem(cfg, env, r0, Do(Dr(e.inode, e.szB, e.ea))))
  {
    var r2 := RunItem(cfg, env, r0, Do(Dr(e.inode, e.szB, e.ea)));
    if !r2.left {
      WriteAfterRead(cfg, env, r0.st, e.inode, e.szB, e.ea);
      EventKeepsSame(cfg, env, r1, r2, e);
    }
  }

  // ----- the write count

  /** How often the run executes a modify of cost centre p. */
  ghost function Modifies(cfg: Config, env: Env, r: Run, items: seq<Item>, p: nat): nat
    requires FittedRun(cfg, r)
    decreases |items|
  {
    if items == [] then 0
    else Modifies(cfg, env, r, Front(items), p) + if ModifiesNow(RunItems(cfg, env, r, Front(items)), Last(items), p) then 1 else 0
  }

  predicate ModifiesNow(r: Run, it: Item, p: nat) {
    !r.left && it.Do? && it.e.Dm? && it.e.inode.parent == p
  }

  ghost predicate WritesNow(env: Env, r: Run, it: Item, p: nat) {
    && !r.left && (it.Do? || (it.Only? && Eval(env, it.guard) != 0))
    && it.e.Dw? && it.e.inode.parent == p
  }

  /** Only a data write that is executed counts, and only for its own cost centre. */
  lemma ItemWrites(cfg: Config, env: Env, r: Run, it: Item, p: nat)
    requires FittedRun(cfg, r) && RunItem(cfg, env, r, it).st.Some?
    ensures r.st.Some?
    ensures Writes(RunItem(cfg, env, r, it).st.value, p)
         == Writes(r.st.value, p) + if WritesNow(env, r, it, p) then 1 else 0
  {
  }

  lemma ModifiesAppend(cfg: Config, env: Env, r: Run, items: seq<Item>, it: Item, p: nat)
    requires FittedRun(cfg, r)
    ensures Modifies(cfg, env, r, items + [it], p)
         == Modifies(cfg, env, r, items, p) + if ModifiesNow(RunItems(cfg, env, r, items), it, p) then 1 else 0
  {
    assert Front(items + [it]) == items && Last(items + [it]) == it;
  }

  /** Whether the run has not panicked. */
  ghost predicate Survives(cfg: Config, env: Env, r: Run, items: seq<Item>)
    requires FittedRun(cfg, r)
  {
    RunItems(cfg, env, r, items).st.Some?
  }

  /** The write count of p, with an executed modify taken for a write. */
  ghost function Tally(cfg: Config, env: Env, r: Run, items: seq<Item>, p: nat): nat
    requires FittedRun(cfg, r) && Survives(cfg, env, r, items)
  {
    Writes(RunItems(cfg, env, r, items).st.value, p) + Modifies(cfg, env, r, items, p)
  }

  ghost function Tallied(env: Env, r: Run, it: Item, p: nat): nat {
    (if WritesNow(env, r, it, p) then 1 else 0) + (if ModifiesNow(r, it, p) then 1 else 0)
  }

  lemma TallyAppend(cfg: Config, env: Env, r: Run, items: seq<Item>, it: Item, p: nat)
    requires FittedRun(cfg, r) && Survives(cfg, env, r, items + [it])
    ensures Survives(cfg, env, r, items)
    ensures Tally(cfg, env, r, items + [it], p)
         == Tally(cfg, env, r, items, p) + Tallied(env, RunItems(cfg, env, r, items), it, p)
  {
    hide RunItems, RunItem, Modifies, ModifiesNow, WritesNow, Writes;
    RunAppend(cfg, env, r, items, it);
    ModifiesAppend(cfg, env, r, items, it, p);
    ItemWrites(cfg, env, RunItems(cfg, env, r, items), it, p);
  }

  lemma SameTallied(env: Env, u: Run, m: Run, it: Item, p: nat)
    requires SameButWrites(u, m)
    ensures Tallied(env, u, it, p) == Tallied(env, m, it, p)
  {
  }

  /** An item that is not merged adds the same to both tallies. */
  lemma AppendKeepsTally(cfg: Config, env: Env, r: Run, items: seq<Item>, items': seq<Item>, it: Item, p: nat)
    requires FittedRun(cfg, r) && Survives(cfg, env, r, items + [it]) && Survives(cfg, env, r, items' + [it])
    requires SameButWrites(RunItems(cfg, env, r, items), RunItems(cfg, env, r, items'))
    requires Survives(cfg, env, r, items) && Survives(cfg, env, r, items')
    requires Tally(cfg, env, r, items, p) == Tally(cfg, env, r, items', p)
    ensures Tally(cfg, env, r, items + [it], p) == Tally(cfg, env, r, items' + [it], p)
  {
    hide RunItems, Tally, Tallied, SameButWrites, Survives, FittedRun;
    TallyAppend(cfg, env, r, items, it, p);
    TallyAppend(cfg, env, r, items', it, p);
    SameTallied(env, RunItems(cfg, env, r, items), RunItems(cfg, env, r, items'), it, p);
  }

  /** What a matching write adds to the tally of the one run, its modify adds to that of the other. */
  lemma WriteOrModify(env: Env, u: Run, r0: Run, e: Event, p: nat)
    requires e.Dw? && u.left == r0.left
    ensures Tallied(env, u, Do(e), p) == Tallied(env, r0, Do(Dm(e.inode, e.szB, e.ea)), p)
    ensures Tallied(env, r0, Do(Dr(e.inode, e.szB, e.ea)), p) == 0
  {
  }

  lemma LeftAfterRead(cfg: Config, env: Env, u: Run, r: Run, d: Item)
    requires FittedRun(cfg, r) && d.Do? && SameButWrites(u, RunItem(cfg, env, r, d))
    ensures u.left == r.left
  {
  }

  /** The modify in place of the read at the end: the run goes on as after the read, and counts one more. */
  lemma ModifyTally(cfg: Config, env: Env, r: Run, items: seq<Item>, merged: seq<Item>, e: Event, p: nat)
    requires FittedRun(cfg, r) && e.Dw? && merged != [] && Last(merged) == Do(Dr(e.inode, e.szB, e.ea))
    requires SameButWrites(RunItems(cfg, env, r, items), RunItems(cfg, env, r, merged))
    requires Survives(cfg, env, r, Push(merged, Do(e)))
    ensures Survives(cfg, env, r, merged)
    ensures Tally(cfg, env, r, Push(merged, Do(e)), p)
         == Tally(cfg, env, r, merged, p) + Tallied(env, RunItems(cfg, env, r, items), Do(e), p)
  {
    hide RunItems, RunItem, Tally, Tallied, SameButWrites, Fitted;
    var d, m := Do(Dr(e.inode, e.szB, e.ea)), Do(Dm(e.inode, e.szB, e.ea));
    var u, r0 := RunItems(cfg, env, r, items), RunItems(cfg, env, r, Front(merged));
    MergedPair(cfg, env, r, merged, e);
    assert merged == Front(merged) + [d];
    TallyAppend(cfg, env, r, Front(merged), d, p);
    TallyAppend(cfg, env, r, Front(merged), m, p);
    LeftAfterRead(cfg, env, u, r0, d);
    WriteOrModify(env, u, r0, e, p);
  }

  /** A write that turns the read at the end into a modify. */
  lemma MergeKeepsTally(cfg: Config, env: Env, r: Run, items: seq<Item>, merged: seq<Item>, w: Item, q: seq<Item>, p: nat)
    requires FittedRun(cfg, r) && w.Do? && w.e.Dw? && q == Push(merged, w)
    requires merged != [] && Last(merged) == Do(Dr(w.e.inode, w.e.szB, w.e.ea))
    requires SameButWrites(RunItems(cfg, env, r, items), RunItems(cfg, env, r, merged))
    requires Survives(cfg, env, r, items + [w]) && Survives(cfg, env, r, q)
    requires Survives(cfg, env, r, items) && Survives(cfg, env, r, merged)
    requires Tally(cfg, env, r, items, p) == Tally(cfg, env, r, merged, p)
    ensures Tally(cfg, env, r, items + [w], p) == Tally(cfg, env, r, q, p)
  {
    hide RunItems, Tally, Tallied, SameButWrites, Survives, FittedRun, Push;
    TallyAppend(cfg, env, r, items, w, p);
    ModifyTally(cfg, env, r, items, merged, w.e, p);
  }

  /** Merging lowers the write count by the modifies it executes: both runs have the same tally. */
  lemma {:induction false} MergeKeepsTallies(cfg: Config, env: Env, r: Run, items: seq<Item>, p: nat)
    requires FittedRun(cfg, r) && cfg.d1.Usable() && Survives(cfg, env, r, items)
    ensures Survives(cfg, env, r, Merged(items))
    ensures Tally(cfg, env, r, items, p) == Tally(cfg, env, r, Merged(items), p)
    decreases |items|
  {
    hide Tally, SameButWrites, RunItems, Push;
    BothSurvive(cfg, env, r, items);
    if items != [] {
      var before, it := Front(items), Last(items);
      assert items == before + [it];
      TallyAppend(cfg, env, r, before, it, p);
      MergeKeepsTallies(cfg, env, r, before, p);
      MergeIsLossless(cfg, env, r, before);
      if Push(Merged(before), it) == Merged(before) + [it] {
        AppendKeepsTally(cfg, env, r, before, Merged(before), it, p);
      } else {
        PushMerges(Merged(before), it);
        MergeKeepsTally(cfg, env, r, before, Merged(before), it, Merged(items), p);
      }
    }
  }

  lemma BothSurvive(cfg: Config, env: Env, r: Run, items: seq<Item>)
    requires FittedRun(cfg, r) && cfg.d1.Usable()
    ensures Survives(cfg, env, r, items) <==> Survives(cfg, env, r, Merged(items))
  {
    MergeIsLossless(cfg, env, r, items);
  }

  lemma PushMerges(q: seq<Item>, it: Item)
    requires Push(q, it) != q + [it]
    ensures it.Do? && it.e.Dw? && q != [] && Last(q) == Do(Dr(it.e.inode, it.e.szB, it.e.ea))
  {
  }

  ghost predicate NoModify(items: seq<Item>) {
    forall k :: 0 <= k < |items| ==> !(items[k].Do? && items[k].e.Dm?)
  }

  lemma {:induction false} NothingModified(cfg: Config, env: Env, r: Run, items: seq<Item>, p: nat)
    requires FittedRun(cfg, r) && NoModify(items)
    ensures Modifies(cfg, env, r, items, p) == 0
    decreases |items|
  {
    if items != [] {
      NothingModified(cfg, env, r, Front(items), p);
    }
  }

  /** The walk itself makes no modify events; only merging does. */
  lemma {:induction false} BodyHasNoModify(cfg: Config, body: seq<Stmt>)
    ensures NoModify(BodyItems(cfg, body))
    decreases |body|
  {
    if body != [] {
      BodyHasNoModify(cfg, Front(body));
      if Started(body) {
        StmtHasNoModify(cfg, Current(cfg, body), Last(body));
      }
    }
  }

  lemma StmtHasNoModify(cfg: Config, n: Inode, st: Stmt)
    ensures NoModify(StmtItems(cfg, n, st))
  {
  }

  /** For every block and execution, merging changes nothing but the write counts, and it lowers the
      write count of every cost centre by exactly the number of modifies it executes there. */
  lemma MergeLowersWritesExactly(cfg: Config, env: Env, r: Run, body: seq<Stmt>, next: Next, p: nat)
    requires FittedRun(cfg, r) && cfg.d1.Usable() && Started(body)
    ensures var items := BlockItems(cfg, body, next);
            var u, m := RunItems(cfg, env, r, items), RunItems(cfg, env, r, Merged(items));
            && SameButWrites(u, m)
            && (u.st.Some? ==> Writes(u.st.value, p) == Writes(m.st.value, p) + Modifies(cfg, env, r, Merged(items), p))
  {
    hide RunItems, Merged, Modifies, Current, BodyItems;
    var items := BlockItems(cfg, body, next);
    BodyHasNoModify(cfg, body);
    NothingModified(cfg, env, r, items, p);
    MergeIsLossless(cfg, env, r, items);
    if Survives(cfg, env, r, items) {
      MergeKeepsTallies(cfg, env, r, items, p);
    }
  }
}
