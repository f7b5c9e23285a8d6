/** Whole runs of the memory process, and what the two replacement policies mean in
    terms of the history of accesses. */
module History {
  import opened Words
  import opened Paging
  import opened Access
  import opened Lifecycle

  datatype Request =
    | Begin(pid: nat, pages: nat)    // INICIALIZAR_PROCESO
    | Fault(page: Page)              // PAGE_FAULT_KERNEL
    | MovOut(df: nat, value: Word)   // MOV_OUT_CPU
    | MovIn(df: nat)                 // MOV_IN_CPU
    | End(pid: nat)                  // FINALIZAR_PROCESO

  /** What happened, in order. */
  datatype Event = New(pid: nat) | Loaded(page: Page) | Used(page: Page) | Gone(pid: nat)

  datatype World = World(m: Memory, log: seq<Event>)

  /** What the rest of the system guarantees about a request: pids are fresh, a fault is
      reported for an absent page only, and an access stays inside a resident page. */
  predicate Legal(m: Memory, r: Request)
    requires Shape(m) && Tables(m)
  {
    match r
    case Begin(pid, _) => pid !in m.count
    case Fault(pg) => pg in m.ents && !m.ents[pg].present
    case MovOut(df, _) => InFrame(m, df)
    case MovIn(df) => InFrame(m, df)
    case End(pid) => pid in m.count
  }

  predicate InFrame(m: Memory, df: nat)
    requires Shape(m) && Tables(m)
  {
    && df + 4 <= |m.ram| && df % m.pageSize + 4 <= m.pageSize
    && (FrameOfAddress(m, df); PageAt(m, df / m.pageSize).Some?)
  }

  function Handle(m: Memory, r: Request): Outcome<Memory>
    requires Inv(m)
  {
    match r
    case Begin(pid, k) => Create(m, pid, k)
    case Fault(pg) => ServeFault(m, pg)
    case MovOut(df, v) => Store(m, df, v)
    case MovIn(df) => (match Load(m, df) case Crash => Crash case Ok((n, _)) => Ok(n))
    case End(pid) => Finish(m, pid)
  }

  function EventOf(m: Memory, r: Request): Event
    requires Inv(m) && Legal(m, r)
  {
    match r
    case Begin(pid, _) => New(pid)
    case Fault(pg) => Loaded(pg)
    case MovOut(df, _) => FrameOfAddress(m, df); Used(PageAt(m, df / m.pageSize).value)
    case MovIn(df) => FrameOfAddress(m, df); Used(PageAt(m, df / m.pageSize).value)
    case End(pid) => Gone(pid)
  }

  /** The frame, page and offset a legal access means. */
  lemma InFramePage(m: Memory, df: nat) returns (pg: Page, off: nat)
    requires Inv(m) && InFrame(m, df)
    ensures df / m.pageSize < |m.owners| && PageAt(m, df / m.pageSize) == Some(pg)
    ensures pg in m.ents && m.ents[pg].present && m.ents[pg].frame >= 0 && off + 4 <= m.pageSize
    ensures EntryOk(m, m.ents[pg], pg.pid)
    ensures df == At(m.pageSize, m.ents[pg].frame, off)
  {
    hide OneHolder, AllHeld, SwapOwned, Queue, Stamps, Clean, FindFrame;
    FrameOfAddress(m, df);
    pg, off := PageAt(m, df / m.pageSize).value, df % m.pageSize;
    JoinAddress(m.pageSize, df);
  }

  lemma HandleKeeps(m: Memory, r: Request)
    requires Inv(m) && Legal(m, r) && Handle(m, r).Ok?
    ensures Inv(Handle(m, r).value)
  {
    hide Inv, Shape, Tables, Create, ServeFault, Store, Load, Finish, InFrame, Contents, Finished;
    match r
    case Begin(pid, k) => CreateKeeps(m, pid, k);
    case Fault(pg) => ServeFaultKeeps(m, pg);
    case MovOut(df, v) =>
      var pg, off := InFramePage(m, df);
      StoreInPage(m, pg, off, v);
    case MovIn(df) =>
      var pg, off := InFramePage(m, df);
      LoadInPage(m, pg, off);
    case End(pid) => FinishKeeps(m, pid);
  }

  /** One request; Crash also when the request is not legal, so an Ok run is a legal one. */
  ghost function Step(w: World, r: Request): Outcome<World> {
    if !Inv(w.m) || !Legal(w.m, r) || Handle(w.m, r).Crash? then Crash
    else Ok(World(Handle(w.m, r).value, w.log + [EventOf(w.m, r)]))
  }

  ghost function Run(w: World, rs: seq<Request>): Outcome<World> {
    if rs == [] then Ok(w)
    else match Run(w, rs[..|rs| - 1])
      case Crash => Crash
      case Ok(u) => Step(u, rs[|rs| - 1])
  }

  /** inicializar_memoria and inicializar_swap: no process, every frame and block free. */
  ghost predicate Initial(m: Memory) {
    && Shape(m) && m.order == [] && m.count == map[] && m.ents == map[] && m.touched == [] && m.clock == 0
    && (forall f :: 0 <= f < |m.owners| ==> m.owners[f] == -1)
    && (forall b :: 0 <= b < |m.taken| ==> !m.taken[b])
  }

  lemma InitialInv(m: Memory)
    requires Initial(m)
    ensures Inv(m)
  {
  }

  /** The memory invariant holds after every run. */
  lemma {:induction false} RunKeeps(w: World, rs: seq<Request>)
    requires Inv(w.m) && Run(w, rs).Ok?
    ensures Inv(Run(w, rs).value.m)
  {
    hide Inv, Legal, Handle, EventOf;
    if rs != [] {
      RunKeeps(w, rs[..|rs| - 1]);
      HandleKeeps(Run(w, rs[..|rs| - 1]).value.m, rs[|rs| - 1]);
    }
  }
}
