/** cachegrind's instrumentation (cg_main.c) on values: the memory events of a flattened block, the
    helper calls that are emitted for them, and what both do to the simulator at run time. */
module EventModel {
  import opened Options
  import opened SetCache
  import opened CacheModel
  import opened Hierarchy

  // ----- the block

  /** A flat IR operand: a temporary, assigned once per block, or a constant. */
  datatype Atom = Tmp(t: nat) | Const(v: nat)

  /** The values of the temporaries in one execution of the block. */
  type Env = nat -> nat

  function Eval(env: Env, a: Atom): nat {
    match a case Tmp(t) => env(t) case Const(v) => v
  }

  datatype Effects = NoFx | Read | Write | Modify

  datatype Stmt =
    | Plain                                             // no memory access, no exit
    | IMark(addr: nat, len: nat)
    | Load(size: nat, ea: Atom)
    | Store(size: nat, ea: Atom)
    | LoadG(size: nat, ea: Atom, guard: Atom)
    | StoreG(size: nat, ea: Atom, guard: Atom)
    | Dirty(fx: Effects, size: nat, ea: Atom)
    | Cas(size: nat, ea: Atom)
    | LoadLinked(size: nat, ea: Atom)
    | StoreCond(size: nat, ea: Atom)
    | Exit(guard: Atom, guestBranch: bool, dst: nat)

  /** The end of the block: where it goes next, and whether that is a jump or call to an unknown target. */
  datatype Next = Known | Unknown(dst: Atom)

  // ----- events and helper calls

  /** One instruction of the block, and the cost centre of its source line. */
  datatype Inode = Inode(id: nat, addr: nat, len: nat, parent: nat)

  /** The guard of a side exit, inverted when the exit was turned round by the optimiser. */
  datatype Taken = Taken(guard: Atom, inverted: bool)

  datatype Event =
    | IrNoX(inode: Inode)
    | IrGen(inode: Inode)
    | Dr(inode: Inode, szB: nat, ea: Atom)
    | Dw(inode: Inode, szB: nat, ea: Atom)
    | Dm(inode: Inode, szB: nat, ea: Atom)
    | Bc(inode: Inode, taken: Taken)
    | Bi(inode: Inode, dst: Atom)

  datatype Call =
    | Log1Ir(n: Inode)
    | Log2Ir(n: Inode, n2: Inode)
    | Log3Ir(n: Inode, n2: Inode, n3: Inode)
    | Log1IrGen0D(n: Inode)
    | Log1IrNoX0D(n: Inode)
    | Log2IrNoX0D(n: Inode, n2: Inode)
    | Log3IrNoX0D(n: Inode, n2: Inode, n3: Inode)
    | Log1IrNoX1Dr(n: Inode, ea: Atom, szB: nat)
    | Log1IrNoX1Dw(n: Inode, ea: Atom, szB: nat)
    | Log0Ir1Dr(n: Inode, ea: Atom, szB: nat)
    | Log0Ir1Dw(n: Inode, ea: Atom, szB: nat)
    | LogCondBranch(n: Inode, taken: Taken)
    | LogIndBranch(n: Inode, dst: Atom)

  /** A statement of the instrumented block. */
  datatype Out = Orig(st: Stmt) | Helper(call: Call) | Guarded(call: Call, guard: Atom)

  // ----- the simulator

  datatype CacheCC = CacheCC(a: nat, m1: nat, mL: nat)
  datatype BranchCC = BranchCC(b: nat, mp: nat)
  datatype LineCC = LineCC(Ir: CacheCC, Dr: CacheCC, DwMisses: (nat, nat), Bc: BranchCC, Bi: BranchCC)

  const ZERO := LineCC(CacheCC(0, 0, 0), CacheCC(0, 0, 0), (0, 0), BranchCC(0, 0), BranchCC(0, 0))

  /** The caches, the cost centres, the number of data writes per cost centre (Dw.a, kept apart), and
      the predictor tables. */
  datatype Sim = Sim(i1: Tags, d1: Tags, ll: Tags, cc: map<nat, LineCC>, writes: map<nat, nat>, tables: seq<nat>)

  /** None after a tool_panic. */
  type State = Option<Sim>

  datatype Config = Config(
    i1: Geometry, d1: Geometry, ll: Geometry,
    cacheSim: bool, branchSim: bool, minLineSize: nat, minInstr: nat,
    line: nat -> nat,                                // the cost centre of an instruction address
    cond: (seq<nat>, nat, nat) -> (seq<nat>, nat),   // the conditional predictor: new tables, mispredicted
    ind: (seq<nat>, nat, nat) -> (seq<nat>, nat))    // the indirect predictor

  ghost predicate Fitted(cfg: Config, s: State) {
    s.Some? ==> Matches(cfg.i1, s.value.i1) && Matches(cfg.d1, s.value.d1) && Matches(cfg.ll, s.value.ll)
  }

  function CC(s: Sim, p: nat): LineCC {
    if p in s.cc then s.cc[p] else ZERO
  }

  function Writes(s: Sim, p: nat): nat {
    if p in s.writes then s.writes[p] else 0
  }

  function Count(c: CacheCC, m1: nat, mL: nat): CacheCC {
    CacheCC(c.a + 1, c.m1 + m1, c.mL + mL)
  }

  /** cachesim_I1_doref_* followed by Ir.a++. */
  ghost function Fetched(cfg: Config, s: Sim, n: Inode, e: Effect): (r: State)
    requires e.Done? ==> Matches(cfg.i1, e.l1) && Matches(cfg.ll, e.ll)
    requires Matches(cfg.d1, s.d1)
    ensures Fitted(cfg, r)
  {
    if e.Stopped? then None
    else
      var c := CC(s, n.parent);
      Some(s.(i1 := e.l1, ll := e.ll, cc := s.cc[n.parent := c.(Ir := Count(c.Ir, e.m1, e.mL))]))
  }

  ghost function FetchGen(cfg: Config, st: State, n: Inode): (r: State)
    requires Fitted(cfg, st)
    ensures Fitted(cfg, r)
  {
    if st.None? then None
    else Fetched(cfg, st.value, n, DoRef(cfg.i1, cfg.ll, st.value.i1, st.value.ll, Access(n.addr, n.len)))
  }

  ghost function FetchNoX(cfg: Config, st: State, n: Inode): (r: State)
    requires Fitted(cfg, st)
    ensures Fitted(cfg, r)
  {
    if st.None? then None
    else Fetched(cfg, st.value, n, DoRefNoX(cfg.i1, cfg.ll, st.value.i1, st.value.ll, Access(n.addr, n.len)))
  }

  /** Only Ir.a++, without cache simulation. */
  ghost function FetchOnly(cfg: Config, st: State, n: Inode): (r: State)
    requires Fitted(cfg, st)
    ensures Fitted(cfg, r)
  {
    if st.None? then None
    else
      var c := CC(st.value, n.parent);
      Some(st.value.(cc := st.value.cc[n.parent := c.(Ir := c.Ir.(a := c.Ir.a + 1))]))
  }

  /** cachesim_D1_doref counted as a read (or a modify). */
  ghost function DataRead(cfg: Config, st: State, n: Inode, addr: nat, szB: nat): (r: State)
    requires Fitted(cfg, st)
    ensures Fitted(cfg, r)
  {
    if st.None? then None
    else
      var s := st.value;
      var e := DoRef(cfg.d1, cfg.ll, s.d1, s.ll, Access(addr, szB));
      if e.Stopped? then None
      else
        var c := CC(s, n.parent);
        Some(s.(d1 := e.l1, ll := e.ll, cc := s.cc[n.parent := c.(Dr := Count(c.Dr, e.m1, e.mL))]))
  }

  /** cachesim_D1_doref counted as a write. */
  ghost function DataWrite(cfg: Config, st: State, n: Inode, addr: nat, szB: nat): (r: State)
    requires Fitted(cfg, st)
    ensures Fitted(cfg, r)
  {
    if st.None? then None
    else
      var s := st.value;
      var e := DoRef(cfg.d1, cfg.ll, s.d1, s.ll, Access(addr, szB));
      if e.Stopped? then None
      else
        var c := CC(s, n.parent);
        Some(s.(d1 := e.l1, ll := e.ll,
                cc := s.cc[n.parent := c.(DwMisses := (c.DwMisses.0 + e.m1, c.DwMisses.1 + e.mL))],
                writes := s.writes[n.parent := Writes(s, n.parent) + 1]))
  }

  function TakenValue(env: Env, t: Taken): nat {
    if t.inverted == (Eval(env, t.guard) != 0) then 0 else 1
  }

  ghost function CondBranch(cfg: Config, st: State, n: Inode, taken: nat): (r: State)
    requires Fitted(cfg, st)
    ensures Fitted(cfg, r)
  {
    if st.None? then None
    else
      var (t, mis) := cfg.cond(st.value.tables, n.addr, taken);
      var c := CC(st.value, n.parent);
      Some(st.value.(tables := t, cc := st.value.cc[n.parent := c.(Bc := BranchCC(c.Bc.b + 1, c.Bc.mp + mis % 2))]))
  }

  ghost function IndBranch(cfg: Config, st: State, n: Inode, dst: nat): (r: State)
    requires Fitted(cfg, st)
    ensures Fitted(cfg, r)
  {
    if st.None? then None
    else
      var (t, mis) := cfg.ind(st.value.tables, n.addr, dst);
      var c := CC(st.value, n.parent);
      Some(st.value.(tables := t, cc := st.value.cc[n.parent := c.(Bi := BranchCC(c.Bi.b + 1, c.Bi.mp + mis % 2))]))
  }

  // ----- meaning of one event, and of one helper call

  /** The reference: an instruction read always takes the general path. */
  ghost function ExecEvent(cfg: Config, env: Env, st: State, e: Event): (r: State)
    requires Fitted(cfg, st)
    ensures Fitted(cfg, r)
  {
    match e
    case IrNoX(n) => if cfg.cacheSim then FetchGen(cfg, st, n) else FetchOnly(cfg, st, n)
    case IrGen(n) => if cfg.cacheSim then FetchGen(cfg, st, n) else FetchOnly(cfg, st, n)
    case Dr(n, szB, ea) => DataRead(cfg, st, n, Eval(env, ea), szB)
    case Dm(n, szB, ea) => DataRead(cfg, st, n, Eval(env, ea), szB)
    case Dw(n, szB, ea) => DataWrite(cfg, st, n, Eval(env, ea), szB)
    case Bc(n, taken) => CondBranch(cfg, st, n, TakenValue(env, taken))
    case Bi(n, dst) => IndBranch(cfg, st, n, Eval(env, dst))
  }

  ghost function ExecCall(cfg: Config, env: Env, st: State, c: Call): (r: State)
    requires Fitted(cfg, st)
    ensures Fitted(cfg, r)
  {
    match c
    case Log1Ir(n) => FetchOnly(cfg, st, n)
    case Log2Ir(n, n2) => FetchOnly(cfg, FetchOnly(cfg, st, n), n2)
    case Log3Ir(n, n2, n3) => FetchOnly(cfg, FetchOnly(cfg, FetchOnly(cfg, st, n), n2), n3)
    case Log1IrGen0D(n) => FetchGen(cfg, st, n)
    case Log1IrNoX0D(n) => FetchNoX(cfg, st, n)
    case Log2IrNoX0D(n, n2) => FetchNoX(cfg, FetchNoX(cfg, st, n), n2)
    case Log3IrNoX0D(n, n2, n3) => FetchNoX(cfg, FetchNoX(cfg, FetchNoX(cfg, st, n), n2), n3)
    case Log1IrNoX1Dr(n, ea, szB) => DataRead(cfg, FetchNoX(cfg, st, n), n, Eval(env, ea), szB)
    case Log1IrNoX1Dw(n, ea, szB) => DataWrite(cfg, FetchNoX(cfg, st, n), n, Eval(env, ea), szB)
    case Log0Ir1Dr(n, ea, szB) => DataRead(cfg, st, n, Eval(env, ea), szB)
    case Log0Ir1Dw(n, ea, szB) => DataWrite(cfg, st, n, Eval(env, ea), szB)
    case LogCondBranch(n, taken) => CondBranch(cfg, st, n, TakenValue(env, taken))
    case LogIndBranch(n, dst) => IndBranch(cfg, st, n, Eval(env, dst))
  }

  ghost function ExecEvents(cfg: Config, env: Env, st: State, q: seq<Event>): (r: State)
    requires Fitted(cfg, st)
    ensures Fitted(cfg, r)
    decreases |q|
  {
    if q == [] then st else ExecEvents(cfg, env, ExecEvent(cfg, env, st, q[0]), q[1..])
  }

  ghost function ExecCalls(cfg: Config, env: Env, st: State, cs: seq<Call>): (r: State)
    requires Fitted(cfg, st)
    ensures Fitted(cfg, r)
    decreases |cs|
  {
    if cs == [] then st else ExecCalls(cfg, env, ExecCall(cfg, env, st, cs[0]), cs[1..])
  }

  // ----- flushing the queue

  predicate IsIr(e: Event) { e.IrNoX? || e.IrGen? }

  predicate IsData(e: Event) { e.Dr? || e.Dw? || e.Dm? }

  /** A data event that follows an instruction read belongs to that instruction; reads marked NoX
      satisfy the test; and there are data events only with cache simulation. */
  ghost predicate Coherent(cfg: Config, q: seq<Event>) {
    && (forall i :: 0 <= i < |q| - 1 && IsIr(q[i]) && IsData(q[i + 1]) ==> q[i + 1].inode == q[i].inode)
    && (forall i :: 0 <= i < |q| && q[i].IrNoX? ==> IsIrNoX(cfg.i1, cfg.ll, Access(q[i].inode.addr, q[i].inode.len)))
    && (forall i :: 0 <= i < |q| && IsData(q[i]) ==> cfg.cacheSim)
  }

  /** The helper for the events at the front of the queue, and how many of them it covers. */
  function FirstCall(cfg: Config, q: seq<Event>): (r: (Call, nat))
    requires q != []
    ensures 1 <= r.1 <= |q|
  {
    var n := q[0].inode;
    match q[0]
    case IrNoX(_) =>
      if |q| > 1 && (q[1].Dr? || q[1].Dm?) then (Log1IrNoX1Dr(n, q[1].ea, q[1].szB), 2)
      else if |q| > 1 && q[1].Dw? then (Log1IrNoX1Dw(n, q[1].ea, q[1].szB), 2)
      else if |q| > 2 && q[1].IrNoX? && q[2].IrNoX? then
        (if cfg.cacheSim then Log3IrNoX0D(n, q[1].inode, q[2].inode) else Log3Ir(n, q[1].inode, q[2].inode), 3)
      else if |q| > 1 && q[1].IrNoX? then
        (if cfg.cacheSim then Log2IrNoX0D(n, q[1].inode) else Log2Ir(n, q[1].inode), 2)
      else (if cfg.cacheSim then Log1IrNoX0D(n) else Log1Ir(n), 1)
    case IrGen(_) => (if cfg.cacheSim then Log1IrGen0D(n) else Log1Ir(n), 1)
    case Dr(_, szB, ea) => (Log0Ir1Dr(n, ea, szB), 1)
    case Dm(_, szB, ea) => (Log0Ir1Dr(n, ea, szB), 1)
    case Dw(_, szB, ea) => (Log0Ir1Dw(n, ea, szB), 1)
    case Bc(_, taken) => (LogCondBranch(n, taken), 1)
    case Bi(_, dst) => (LogIndBranch(n, dst), 1)
  }

  function FlushCalls(cfg: Config, q: seq<Event>): seq<Call>
    decreases |q|
  {
    if q == [] then [] else [FirstCall(cfg, q).0] + FlushCalls(cfg, q[FirstCall(cfg, q).1..])
  }

  /** How many events one call covers: three fetches of the special kind in a row, a fetch of that kind with
      the data access or the one fetch that follows it, or one event. */
  lemma FirstCallCovers(cfg: Config, q: seq<Event>)
    requires q != []
    ensures FirstCall(cfg, q).1 == 3 <==> |q| >= 3 && forall k :: 0 <= k < 3 ==> q[k].IrNoX?
    ensures FirstCall(cfg, q).1 == 2 <==>
              |q| >= 2 && q[0].IrNoX? && (q[1].Dr? || q[1].Dm? || q[1].Dw? || (q[1].IrNoX? && (|q| == 2 || !q[2].IrNoX?)))
  {
    assert |q| >= 3 ==> (forall k :: 0 <= k < 3 ==> q[k].IrNoX?) == (q[0].IrNoX? && q[1].IrNoX? && q[2].IrNoX?);
  }

  /** So a run of fetches of the special kind takes a third as many calls. */
  lemma {:induction false} FetchesInThrees(cfg: Config, q: seq<Event>)
    requires forall k :: 0 <= k < |q| ==> q[k].IrNoX?
    ensures |FlushCalls(cfg, q)| == (|q| + 2) / 3
    decreases |q|
  {
    hide FirstCall;
    if q != [] {
      FirstCallCovers(cfg, q);
      FetchesInThrees(cfg, q[FirstCall(cfg, q).1..]);
    }
  }

  lemma FetchesAgree(cfg: Config, st: State, n: Inode)
    requires Fitted(cfg, st) && IsIrNoX(cfg.i1, cfg.ll, Access(n.addr, n.len))
    ensures FetchNoX(cfg, st, n) == FetchGen(cfg, st, n)
  {
    if st.Some? {
      NoXIsGen(cfg.i1, cfg.ll, st.value.i1, st.value.ll, Access(n.addr, n.len));
    }
  }

  /** With a NoX instruction read, the special case does what the reference does. */
  lemma NoXEvent(cfg: Config, env: Env, st: State, e: Event)
    requires Fitted(cfg, st) && e.IrNoX? && IsIrNoX(cfg.i1, cfg.ll, Access(e.inode.addr, e.inode.len))
    ensures ExecEvent(cfg, env, st, e) == if cfg.cacheSim then FetchNoX(cfg, st, e.inode) else FetchOnly(cfg, st, e.inode)
  {
    FetchesAgree(cfg, st, e.inode);
  }

  lemma ExecOne(cfg: Config, env: Env, st: State, e: Event)
    requires Fitted(cfg, st)
    ensures ExecEvents(cfg, env, st, [e]) == ExecEvent(cfg, env, st, e)
  {
    assert [e][1..] == [];
  }

  lemma ExecTwo(cfg: Config, env: Env, st: State, e: Event, f: Event)
    requires Fitted(cfg, st)
    ensures ExecEvents(cfg, env, st, [e, f]) == ExecEvent(cfg, env, ExecEvent(cfg, env, st, e), f)
  {
    assert [e, f][1..] == [f];
    ExecOne(cfg, env, ExecEvent(cfg, env, st, e), f);
  }

  lemma ExecThree(cfg: Config, env: Env, st: State, e: Event, f: Event, g: Event)
    requires Fitted(cfg, st)
    ensures ExecEvents(cfg, env, st, [e, f, g])
         == ExecEvent(cfg, env, ExecEvent(cfg, env, ExecEvent(cfg, env, st, e), f), g)
  {
    assert [e, f, g][1..] == [f, g];
    ExecTwo(cfg, env, ExecEvent(cfg, env, st, e), f, g);
  }

  /** One helper call does what the events it covers do, one at a time. */
  lemma FirstCallMeans(cfg: Config, env: Env, st: State, q: seq<Event>)
    requires Fitted(cfg, st) && q != [] && Coherent(cfg, q)
    ensures ExecCall(cfg, env, st, FirstCall(cfg, q).0) == ExecEvents(cfg, env, st, q[..FirstCall(cfg, q).1])
  {
    var (c, k) := FirstCall(cfg, q);
    if k == 1 {
      assert q[..k] == [q[0]];
      SingleCallMeans(cfg, env, st, q);
    } else if k == 2 {
      assert q[..k] == [q[0], q[1]];
      PairCallMeans(cfg, env, st, q);
    } else {
      assert q[..k] == [q[0], q[1], q[2]];
      TripleCallMeans(cfg, env, st, q);
    }
  }

  lemma SingleCallMeans(cfg: Config, env: Env, st: State, q: seq<Event>)
    requires Fitted(cfg, st) && q != [] && Coherent(cfg, q) && FirstCall(cfg, q).1 == 1
    ensures ExecCall(cfg, env, st, FirstCall(cfg, q).0) == ExecEvents(cfg, env, st, [q[0]])
  {
    hide FetchGen, FetchNoX, FetchOnly, DataRead, DataWrite, CondBranch, IndBranch, ExecEvents;
    var n, c := q[0].inode, FirstCall(cfg, q).0;
    ExecOne(cfg, env, st, q[0]);
    match q[0] {
      case IrNoX(_) =>
        NoXEvent(cfg, env, st, q[0]);
        assert c == if cfg.cacheSim then Log1IrNoX0D(n) else Log1Ir(n);
      case IrGen(_) =>
        assert c == if cfg.cacheSim then Log1IrGen0D(n) else Log1Ir(n);
      case Dr(_, szB, ea) =>
        assert c == Log0Ir1Dr(n, ea, szB);
      case Dm(_, szB, ea) =>
        assert c == Log0Ir1Dr(n, ea, szB);
      case Dw(_, szB, ea) =>
        assert c == Log0Ir1Dw(n, ea, szB);
      case Bc(_, taken) =>
        assert c == LogCondBranch(n, taken);
      case Bi(_, dst) =>
        assert c == LogIndBranch(n, dst);
    }
  }

  lemma PairCallMeans(cfg: Config, env: Env, st: State, q: seq<Event>)
    requires Fitted(cfg, st) && q != [] && Coherent(cfg, q) && FirstCall(cfg, q).1 == 2
    ensures ExecCall(cfg, env, st, FirstCall(cfg, q).0) == ExecEvents(cfg, env, st, [q[0], q[1]])
  {
    hide ExecCall, ExecEvent, ExecEvents;
    ExecTwo(cfg, env, st, q[0], q[1]);
    if q[1].IrNoX? {
      FetchPair(cfg, env, st, q[0], q[1]);
    } else {
      FetchData(cfg, env, st, q[0], q[1]);
    }
  }

  lemma FetchPair(cfg: Config, env: Env, st: State, e: Event, f: Event)
    requires Fitted(cfg, st) && e.IrNoX? && f.IrNoX?
    requires IsIrNoX(cfg.i1, cfg.ll, Access(e.inode.addr, e.inode.len))
    requires IsIrNoX(cfg.i1, cfg.ll, Access(f.inode.addr, f.inode.len))
    ensures ExecCall(cfg, env, st, if cfg.cacheSim then Log2IrNoX0D(e.inode, f.inode) else Log2Ir(e.inode, f.inode))
         == ExecEvent(cfg, env, ExecEvent(cfg, env, st, e), f)
  {
    hide FetchGen, FetchNoX, FetchOnly, DataRead, DataWrite, CondBranch, IndBranch, ExecEvent;
    NoXEvent(cfg, env, st, e);
    NoXEvent(cfg, env, ExecEvent(cfg, env, st, e), f);
  }

  lemma FetchData(cfg: Config, env: Env, st: State, e: Event, f: Event)
    requires Fitted(cfg, st) && e.IrNoX? && IsData(f) && f.inode == e.inode && cfg.cacheSim
    requires IsIrNoX(cfg.i1, cfg.ll, Access(e.inode.addr, e.inode.len))
    ensures ExecCall(cfg, env, st, if f.Dw? then Log1IrNoX1Dw(e.inode, f.ea, f.szB) else Log1IrNoX1Dr(e.inode, f.ea, f.szB))
         == ExecEvent(cfg, env, ExecEvent(cfg, env, st, e), f)
  {
    hide FetchGen, FetchNoX, FetchOnly, DataRead, DataWrite;
    NoXEvent(cfg, env, st, e);
  }

  lemma TripleCallMeans(cfg: Config, env: Env, st: State, q: seq<Event>)
    requires Fitted(cfg, st) && q != [] && Coherent(cfg, q) && FirstCall(cfg, q).1 == 3
    ensures |q| > 2 && ExecCall(cfg, env, st, FirstCall(cfg, q).0) == ExecEvents(cfg, env, st, [q[0], q[1], q[2]])
  {
    hide ExecCall, ExecEvent, ExecEvents;
    ExecThree(cfg, env, st, q[0], q[1], q[2]);
    FetchTriple(cfg, env, st, q[0], q[1], q[2]);
  }

  lemma FetchTriple(cfg: Config, env: Env, st: State, e: Event, f: Event, g: Event)
    requires Fitted(cfg, st) && e.IrNoX? && f.IrNoX? && g.IrNoX?
    requires IsIrNoX(cfg.i1, cfg.ll, Access(e.inode.addr, e.inode.len))
    requires IsIrNoX(cfg.i1, cfg.ll, Access(f.inode.addr, f.inode.len))
    requires IsIrNoX(cfg.i1, cfg.ll, Access(g.inode.addr, g.inode.len))
    ensures ExecCall(cfg, env, st, if cfg.cacheSim then Log3IrNoX0D(e.inode, f.inode, g.inode) else Log3Ir(e.inode, f.inode, g.inode))
         == ExecEvent(cfg, env, ExecEvent(cfg, env, ExecEvent(cfg, env, st, e), f), g)
  {
    hide FetchGen, FetchNoX, FetchOnly, DataRead, DataWrite, CondBranch, IndBranch, ExecEvent, ExecCall;
    var s2 := ExecEvent(cfg, env, ExecEvent(cfg, env, st, e), f);
    FetchPair(cfg, env, st, e, f);
    NoXEvent(cfg, env, s2, g);
    ThirdFetch(cfg, env, st, e.inode, f.inode, g.inode, s2);
  }

  /** The third fetch of a triple follows the pair. */
  lemma ThirdFetch(cfg: Config, env: Env, st: State, n: Inode, n2: Inode, n3: Inode, s2: State)
    requires Fitted(cfg, st) && s2 == ExecCall(cfg, env, st, if cfg.cacheSim then Log2IrNoX0D(n, n2) else Log2Ir(n, n2))
    ensures ExecCall(cfg, env, st, if cfg.cacheSim then Log3IrNoX0D(n, n2, n3) else Log3Ir(n, n2, n3))
         == if cfg.cacheSim then FetchNoX(cfg, s2, n3) else FetchOnly(cfg, s2, n3)
  {
    hide FetchGen, FetchNoX, FetchOnly, DataRead, DataWrite, CondBranch, IndBranch, ExecEvent;
  }

  lemma {:induction false} ExecEventsConcat(cfg: Config, env: Env, st: State, p: seq<Event>, q: seq<Event>)
    requires Fitted(cfg, st)
    ensures ExecEvents(cfg, env, st, p + q) == ExecEvents(cfg, env, ExecEvents(cfg, env, st, p), q)
    decreases |p|
  {
    if p == [] {
      assert p + q == q;
    } else {
      assert (p + q)[1..] == p[1..] + q;
      ExecEventsConcat(cfg, env, ExecEvent(cfg, env, st, p[0]), p[1..], q);
    }
  }

  /** Flushing preserves meaning: the calls emitted for a queue do what its events do one at a time. */
  lemma {:induction false} FlushMeans(cfg: Config, env: Env, st: State, q: seq<Event>)
    requires Fitted(cfg, st) && Coherent(cfg, q)
    ensures ExecCalls(cfg, env, st, FlushCalls(cfg, q)) == ExecEvents(cfg, env, st, q)
    decreases |q|
  {
    hide ExecCall, ExecEvent, FirstCall;
    if q != [] {
      var (c, k) := FirstCall(cfg, q);
      FirstCallMeans(cfg, env, st, q);
      assert q == q[..k] + q[k..];
      ExecEventsConcat(cfg, env, st, q[..k], q[k..]);
      assert FlushCalls(cfg, q)[1..] == FlushCalls(cfg, q[k..]);
      FlushMeans(cfg, env, ExecCall(cfg, env, st, c), q[k..]);
    }
  }
}
