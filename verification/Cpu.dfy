/** The CPU's fetch-execute cycle over paged memory (cpu/src/cpu.c,
    cpu/src/instructions.c), and the flat-memory machine it should be. */
module Cpu {
  import opened Words
  import opened Paging
  import opened Access
  import opened FlatView
  import opened Codec

  datatype Register = AX | BX | CX | DX

  datatype Instruction =
    | Set(reg: Register, value: Word)
    | Sum(dst: Register, src: Register)
    | Sub(dst: Register, src: Register)
    | Jnz(reg: Register, target: Word)
    | MoveIn(reg: Register, address: Word)
    | MoveOut(address: Word, reg: Register)
    | Call(call: Syscall)
    | FileRead(buffer: Word)
    | FileWrite(buffer: Word)
    | Unknown  // any other code
    | Exit

  /** The system calls of which the CPU only takes note. */
  datatype Syscall = Sleep | Wait | Signal | Open | Close | Seek | Truncate

  /** A program line: the operation, and the text the CPU received for it. */
  datatype Line = Line(op: Instruction, text: RawInstruction)

  type Program = seq<Line>

  // nombre_instruccion
  const SET: Word := 0
  const SUM: Word := 1
  const SUB: Word := 2
  const JNZ: Word := 3
  const SLEEP: Word := 4
  const WAIT: Word := 5
  const SIGNAL: Word := 6
  const MOV_IN: Word := 7
  const MOV_OUT: Word := 8
  const F_OPEN: Word := 9
  const F_CLOSE: Word := 11
  const F_SEEK: Word := 12
  const F_READ: Word := 13
  const F_WRITE: Word := 14
  const F_TRUNCATE: Word := 15
  const EXIT: Word := 16
  const NO_INSTRUCTION: Word := 0xFFFF_FFFF

  // motivo_desalojo
  const INTERRUPT_FIN_QUANTUM: Word := 0
  const INTERRUPT_FIN_PROCESO: Word := 1
  const INTERRUPT_NUEVO_PROCESO: Word := 2
  const SYSCALL: Word := 3
  const PAGE_FAULT: Word := 4
  const PAGE_FAULT_RESUELTO: Word := 5

  function CodeOf(call: Syscall): Word {
    match call
    case Sleep => SLEEP
    case Wait => WAIT
    case Signal => SIGNAL
    case Open => F_OPEN
    case Close => F_CLOSE
    case Seek => F_SEEK
    case Truncate => F_TRUNCATE
  }

  /** es_syscall. */
  predicate IsSyscall(code: Word) {
    code in {WAIT, SIGNAL, SLEEP, F_OPEN, F_CLOSE, F_READ, F_WRITE, F_SEEK, F_TRUNCATE, EXIT}
  }

  /** get_registry. */
  function Get(r: Registers, reg: Register): Word {
    match reg case AX => r.ax case BX => r.bx case CX => r.cx case DX => r.dx
  }

  function Put(r: Registers, reg: Register, v: Word): Registers {
    match reg case AX => r.(ax := v) case BX => r.(bx := v) case CX => r.(cx := v) case DX => r.(dx := v)
  }

  function Add32(a: Word, b: Word): Word { (a + b) % WORD }

  function Sub32(a: Word, b: Word): Word { (a - b) % WORD }

  /** program_counter++ on an int. */
  function Next(pc: Int32): Int32 { if pc == 0x7FFF_FFFF then -0x8000_0000 else pc + 1 }

  // ----------------------------------------------------- the reference machine

  datatype Machine = Machine(regs: Registers, pc: Int32, mem: Bytes)

  datatype Outcome3 = Stuck | Halted(last: Machine) | Runs(next: Machine)

  /** MOV_IN keeps the register when the value read is 0xFFFFFFFF. */
  function Loaded32(r: Registers, reg: Register, v: Word): Registers {
    if v == 0xFFFF_FFFF then r else Put(r, reg, v)
  }

  /** One instruction on a machine with one flat private memory, no paging and no files. A
      jump lands on target + 1, as in the CPU. */
  function MachineStep(prog: Program, s: Machine): Outcome3 {
    if !(0 <= s.pc < |prog|) then Stuck
    else match prog[s.pc].op
      case Set(reg, v) => Runs(s.(regs := Put(s.regs, reg, v), pc := Next(s.pc)))
      case Sum(d, o) => Runs(s.(regs := Put(s.regs, d, Add32(Get(s.regs, d), Get(s.regs, o))), pc := Next(s.pc)))
      case Sub(d, o) => Runs(s.(regs := Put(s.regs, d, Sub32(Get(s.regs, d), Get(s.regs, o))), pc := Next(s.pc)))
      case Jnz(reg, target) => Runs(s.(pc := Next(if Get(s.regs, reg) != 0 then Signed(target) else s.pc)))
      case MoveIn(reg, dl) =>
        if dl + 4 > |s.mem| then Stuck
        else Runs(s.(regs := Loaded32(s.regs, reg, FromLe(s.mem[dl..dl + 4])), pc := Next(s.pc)))
      case MoveOut(dl, reg) =>
        if dl + 4 > |s.mem| then Stuck
        else Runs(s.(mem := Patch(s.mem, dl, Le(Get(s.regs, reg))), pc := Next(s.pc)))
      case Call(_) => Runs(s.(pc := Next(s.pc)))
      case FileRead(_) => Stuck
      case FileWrite(_) => Stuck
      case Unknown => Runs(s.(pc := Next(s.pc)))
      case Exit => Halted(s.(pc := Next(s.pc)))
  }

  // ------------------------------------------------------------- the real CPU

  datatype Translation = Physical(df: nat) | PageFault(page: nat)

  function PageNumber(dl: Word, P: nat): (index: Word)
    requires P > 0
    ensures index == dl / P
  {
    JoinAddress(P, dl);
    dl / P
  }

  /** The MARCO request (obtener_marco_pid); Crash when the table has no such entry. */
  function Lookup(m: Memory, pid: int, index: nat): Outcome<Option<int>> {
    if pid < 0 || Page(pid, index) !in m.ents then Crash
    else Ok(if m.ents[Page(pid, index)].present then Some(m.ents[Page(pid, index)].frame) else None)
  }

  /** traducir_dl. */
  function Translate(m: Memory, pid: int, dl: Word): (r: Outcome<Translation>)
    requires Inv(m)
    ensures r.Ok? && r.value.PageFault? ==> r.value.page < WORD
  {
    var index := PageNumber(dl, m.pageSize);
    match Lookup(m, pid, index)
    case Crash => Crash
    case Ok(None) => Ok(PageFault(index))
    case Ok(Some(frame)) => FrameNonNegative(m, Page(pid, index)); Ok(Physical(At(m.pageSize, frame, dl % m.pageSize)))
  }

  lemma FrameNonNegative(m: Memory, pg: Page)
    requires Inv(m) && pg in m.ents && m.ents[pg].present
    ensures m.ents[pg].frame >= 0 && EntryOk(m, m.ents[pg], pg.pid)
  {
  }

  /** What one cycle leaves: the contexto_actual, the memory and the page_fault flag. */
  datatype Cycled = Cycled(ctx: Context, m: Memory, pageFault: bool)

  /** _mov_in with obtener_valor_dir. */
  function ExecuteMoveIn(m: Memory, c: Context, reg: Register, dl: Word): Outcome<Cycled>
    requires Inv(m)
  {
    match Translate(m, c.pid, dl)
    case Crash => Crash
    case Ok(PageFault(page)) => Ok(Cycled(c.(faultPage := Signed(page), lastCode := MOV_IN), m, true))
    case Ok(Physical(df)) =>
      match Load(m, df)
      case Crash => Crash
      case Ok((n, v)) => Ok(Cycled(c.(regs := Loaded32(c.regs, reg, v), lastCode := MOV_IN), n, false))
  }

  /** _mov_out with escribir_memoria. */
  function ExecuteMoveOut(m: Memory, c: Context, dl: Word, reg: Register): Outcome<Cycled>
    requires Inv(m)
  {
    match Translate(m, c.pid, dl)
    case Crash => Crash
    case Ok(PageFault(page)) => Ok(Cycled(c.(faultPage := Signed(page), lastCode := MOV_OUT), m, true))
    case Ok(Physical(df)) =>
      match Store(m, df, Get(c.regs, reg))
      case Crash => Crash
      case Ok(n) => Ok(Cycled(c.(lastCode := MOV_OUT), n, false))
  }

  /** string_itoa of a number that is not negative, with the final NUL. */
  function Decimal(n: nat): Bytes {
    Digits(n) + [0]
  }

  function Digits(n: nat): Bytes {
    if n < 10 then [48 + n] else Digits(n / 10) + [48 + n % 10]
  }

  /** _f_read and _f_write with traducir_dl_fs: the logical address in the text of the
      instruction is replaced by the physical one. */
  function ExecuteFile(m: Memory, c: Context, dl: Word, code: Word): Outcome<Cycled>
    requires Inv(m)
  {
    match Translate(m, c.pid, dl)
    case Crash => Crash
    case Ok(PageFault(page)) => Ok(Cycled(c.(faultPage := Signed(page), lastCode := code, reason := SYSCALL), m, true))
    case Ok(Physical(df)) =>
      var text := Decimal(df);
      Ok(Cycled(c.(instruction := c.instruction.(len2 := |text| % WORD, param2 := text), lastCode := code,
                   reason := SYSCALL), m, false))
  }

  /** decode: one instruction, before the program counter is advanced. */
  function Execute(m: Memory, c: Context, op: Instruction): Outcome<Cycled>
    requires Inv(m)
  {
    match op
    case Set(reg, v) => Ok(Cycled(c.(regs := Put(c.regs, reg, v), lastCode := SET), m, false))
    case Sum(d, o) =>
      Ok(Cycled(c.(regs := Put(c.regs, d, Add32(Get(c.regs, d), Get(c.regs, o))), lastCode := SUM), m, false))
    case Sub(d, o) =>
      Ok(Cycled(c.(regs := Put(c.regs, d, Sub32(Get(c.regs, d), Get(c.regs, o))), lastCode := SUB), m, false))
    case Jnz(reg, target) =>
      Ok(Cycled(if Get(c.regs, reg) != 0 then c.(pc := Signed(target), lastCode := JNZ) else c, m, false))
    case MoveIn(reg, dl) => ExecuteMoveIn(m, c, reg, dl)
    case MoveOut(dl, reg) => ExecuteMoveOut(m, c, dl, reg)
    case Call(call) => Ok(Cycled(c.(lastCode := CodeOf(call), reason := SYSCALL), m, false))
    case FileRead(dl) => ExecuteFile(m, c, dl, F_READ)
    case FileWrite(dl) => ExecuteFile(m, c, dl, F_WRITE)
    case Unknown => Ok(Cycled(c, m, false))
    case Exit => Ok(Cycled(c.(lastCode := EXIT), m, false))
  }

  /** ejecutar_ciclo_instruccion: fetch, decode, and advance unless a page fault. */
  function Cycle(m: Memory, prog: Program, c: Context): Outcome<Cycled>
    requires Inv(m)
  {
    if !(0 <= c.pc < |prog|) then Crash
    else match Execute(m, c.(instruction := prog[c.pc].text), prog[c.pc].op)
      case Crash => Crash
      case Ok(r) => Ok(if r.pageFault then r else r.(ctx := r.ctx.(pc := Next(r.ctx.pc))))
  }

  // ---------------------------------------------------------------- refinement

  /** Every memory operand of the program stays inside one page. */
  predicate OperandsInPage(prog: Program, P: nat) {
    P > 0 && forall k :: 0 <= k < |prog| ==>
      match prog[k].op
      case MoveIn(_, dl) => dl % P + 4 <= P
      case MoveOut(dl, _) => dl % P + 4 <= P
      case _ => true
  }

  /** And it uses no files. */
  predicate InPage(prog: Program, P: nat) {
    OperandsInPage(prog, P) && forall k :: 0 <= k < |prog| ==> !prog[k].op.FileRead? && !prog[k].op.FileWrite?
  }

  /** The flat machine that a context and the memory process together represent. */
  ghost function MachineOf(m: Memory, c: Context): Machine
    requires Inv(m) && c.pid >= 0 && c.pid in m.count
  {
    Machine(c.regs, c.pc, Flat(m, c.pid))
  }

  /** Another process sees the same memory. */
  ghost predicate OthersKept(m: Memory, n: Memory, pid: nat)
    requires Inv(m) && Inv(n)
  {
    n.count == m.count && forall p :: p in m.count && p != pid ==> Flat(n, p) == Flat(m, p)
  }

  /** What one real cycle must be, seen from outside: a step of the flat machine, or a
      page fault that changed nothing and names an absent page of the process. */
  ghost predicate CycleRight(m: Memory, prog: Program, c: Context, r: Cycled)
    requires Inv(m) && c.pid >= 0 && c.pid in m.count
  {
    && r.ctx.pid == c.pid && Inv(r.m) && OthersKept(m, r.m, c.pid)
    && if r.pageFault then
         && r.m == m && MachineOf(m, r.ctx) == MachineOf(m, c)
         && r.ctx.faultPage >= 0 && Page(c.pid, r.ctx.faultPage) in m.ents
         && !m.ents[Page(c.pid, r.ctx.faultPage)].present
       else
         && 0 <= c.pc < |prog|
         && MachineStep(prog, MachineOf(m, c))
            == if prog[c.pc].op.Exit? then Halted(MachineOf(r.m, r.ctx)) else Runs(MachineOf(r.m, r.ctx))
  }

  lemma SplitLogical(P: nat, dl: nat, k: nat)
    requires P > 0 && dl % P + 4 <= P
    ensures dl == At(P, dl / P, dl % P) && (dl / P < k <==> dl + 4 <= k * P)
  {
    JoinAddress(P, dl);
    var i := dl / P;
    if i < k {
      FrameInside(k, P, i);
    } else if k < i {
      FramesApart(P, k, i);
    }
  }

  lemma AddressOfPage(m: Memory, pid: nat, dl: Word)
    requires Inv(m) && pid in m.count && dl % m.pageSize + 4 <= m.pageSize
    ensures dl == At(m.pageSize, dl / m.pageSize, dl % m.pageSize)
    ensures Page(pid, dl / m.pageSize) in m.ents <==> dl + 4 <= |Flat(m, pid)|
  {
    hide Inv, Flat, At;
    InvShape(m);
    FlatSize(m, pid);
    SplitLogical(m.pageSize, dl, m.count[pid]);
  }

  lemma SameContentsFlat(m: Memory, n: Memory, pid: nat)
    requires Inv(m) && Inv(n) && Contents(n) == Contents(m) && n.count == m.count && n.pageSize == m.pageSize
    requires pid in m.count
    ensures OthersKept(m, n, pid) && Flat(n, pid) == Flat(m, pid)
  {
    hide Inv, Contents;
  }

  /** A load through translation is a lookup in the flat array. */
  lemma LoadRefines(m: Memory, pid: nat, dl: Word)
    requires Inv(m) && pid in m.count && dl % m.pageSize + 4 <= m.pageSize
    requires Page(pid, dl / m.pageSize) in m.ents && m.ents[Page(pid, dl / m.pageSize)].present
    ensures Translate(m, pid, dl).Ok? && Translate(m, pid, dl).value.Physical?
    ensures var r := Load(m, Translate(m, pid, dl).value.df);
            r.Ok? && Inv(r.value.0) && OthersKept(m, r.value.0, pid) && Flat(r.value.0, pid) == Flat(m, pid)
            && dl + 4 <= |Flat(m, pid)| && r.value.1 == FromLe(Flat(m, pid)[dl..dl + 4])
  {
    hide Inv, Load, Flat, Contents, FromLe, At, OthersKept;
    InvShape(m);
    var pg, off := Page(pid, dl / m.pageSize), dl % m.pageSize;
    InvFacts(m, pg);
    AddressOfPage(m, pid, dl);
    LoadInPage(m, pg, off);
    LoadKeepsShape(m, At(m.pageSize, m.ents[pg].frame, off));
    SameContentsFlat(m, Load(m, At(m.pageSize, m.ents[pg].frame, off)).value.0, pid);
    FlatRange(m, pg, off, 4);
  }

  lemma LoadKeepsShape(m: Memory, df: nat)
    requires Shape(m) && Tables(m) && Load(m, df).Ok?
    ensures Load(m, df).value.0.pageSize == m.pageSize
  {
  }

  /** A store through translation is an update of the flat array. */
  lemma StoreRefines(m: Memory, pid: nat, dl: Word, v: Word)
    requires Inv(m) && pid in m.count && dl % m.pageSize + 4 <= m.pageSize
    requires Page(pid, dl / m.pageSize) in m.ents && m.ents[Page(pid, dl / m.pageSize)].present
    ensures Translate(m, pid, dl).Ok? && Translate(m, pid, dl).value.Physical?
    ensures var r := Store(m, Translate(m, pid, dl).value.df, v);
            r.Ok? && Inv(r.value) && OthersKept(m, r.value, pid)
            && dl + 4 <= |Flat(m, pid)| && Flat(r.value, pid) == Patch(Flat(m, pid), dl, Le(v))
  {
    hide Inv, Store, Flat, Contents, Le, At, Patch;
    InvShape(m);
    var pg, off := Page(pid, dl / m.pageSize), dl % m.pageSize;
    InvFacts(m, pg);
    AddressOfPage(m, pid, dl);
    StoreInPage(m, pg, off, v);
    var df := At(m.pageSize, m.ents[pg].frame, off);
    StoreKeepsShape(m, df, v);
    PatchedPage(m, Store(m, df, v).value, pg, off, Le(v), dl);
  }

  /** Whatever the context, a cycle keeps the memory invariant. */
  lemma CycleKeepsInv(m: Memory, prog: Program, c: Context)
    requires Inv(m) && OperandsInPage(prog, m.pageSize) && Cycle(m, prog, c).Ok?
    ensures Inv(Cycle(m, prog, c).value.m) && Cycle(m, prog, c).value.m.pageSize == m.pageSize
  {
    hide Inv, Flat, Store, Load, Le, FromLe, Patch, Put, Get, Loaded32, Next, At, Add32, Sub32, Decimal, OthersKept;
    InvShape(m);
    var op := prog[c.pc].op;
    if op.MoveIn? || op.MoveOut? {
      var pg := Page(if c.pid >= 0 then c.pid else 0, op.address / m.pageSize);
      if c.pid >= 0 && pg in m.ents && m.ents[pg].present {
        InvFacts(m, pg);
        KeepsBoth(m, pg, op.address, Get(c.regs, op.reg));
      }
    }
  }

  lemma KeepsBoth(m: Memory, pg: Page, dl: Word, v: Word)
    requires Inv(m) && pg in m.ents && m.ents[pg].present && m.pageSize > 0 && pg.index == dl / m.pageSize
    requires dl % m.pageSize + 4 <= m.pageSize && pg.pid in m.count && Shape(m) && Tables(m)
    ensures Translate(m, pg.pid, dl).Ok? && Translate(m, pg.pid, dl).value.Physical?
    ensures var df := Translate(m, pg.pid, dl).value.df;
            && Load(m, df).Ok? && Inv(Load(m, df).value.0) && Load(m, df).value.0.pageSize == m.pageSize
            && Store(m, df, v).Ok? && Inv(Store(m, df, v).value) && Store(m, df, v).value.pageSize == m.pageSize
  {
    hide Inv, Store, Load, Flat, OthersKept, At, Le, FromLe, Patch;
    LoadRefines(m, pg.pid, dl);
    StoreRefines(m, pg.pid, dl, v);
    LoadKeepsShape(m, Translate(m, pg.pid, dl).value.df);
    StoreKeepsShape(m, Translate(m, pg.pid, dl).value.df, v);
  }

  /** Every real cycle is a cycle of the flat machine or a page fault without effect, and
      the CPU or the memory process dies exactly where the flat machine is stuck. */
  lemma CycleRefines(m: Memory, prog: Program, c: Context)
    requires Inv(m) && c.pid >= 0 && c.pid in m.count && InPage(prog, m.pageSize)
    ensures Cycle(m, prog, c).Crash? <==> MachineStep(prog, MachineOf(m, c)).Stuck?
    ensures Cycle(m, prog, c).Ok? ==> CycleRight(m, prog, c, Cycle(m, prog, c).value)
  {
    hide Inv, Flat, Store, Load, Le, FromLe, Patch, Put, Get, Translate, Loaded32, Add32, Sub32, Next;
    if 0 <= c.pc < |prog| {
      match prog[c.pc].op {
        case MoveIn(reg, dl) =>
          CycleLoads(m, prog, c, reg, dl);
        case MoveOut(dl, reg) =>
          CycleStores(m, prog, c, dl, reg);
        case _ =>
      }
    }
  }

  /** A memory instruction whose page is unknown or absent. */
  lemma CycleWithoutPage(m: Memory, prog: Program, c: Context, dl: Word)
    requires Inv(m) && c.pid >= 0 && 0 <= c.pc < |prog| && m.pageSize > 0
    requires (prog[c.pc].op.MoveIn? || prog[c.pc].op.MoveOut?) && prog[c.pc].op.address == dl
    ensures var pg := Page(c.pid, dl / m.pageSize);
            && (pg !in m.ents ==> Cycle(m, prog, c).Crash?)
            && (pg in m.ents && !m.ents[pg].present ==>
                  Cycle(m, prog, c) == Ok(Cycled(
                    c.(instruction := prog[c.pc].text, faultPage := Signed(pg.index),
                       lastCode := if prog[c.pc].op.MoveIn? then MOV_IN else MOV_OUT), m, true)))
  {
    hide Inv, Store, Load, Get, Put, Next;
  }

  lemma CycleLoads(m: Memory, prog: Program, c: Context, reg: Register, dl: Word)
    requires Inv(m) && c.pid >= 0 && c.pid in m.count && InPage(prog, m.pageSize) && 0 <= c.pc < |prog|
    requires prog[c.pc].op == MoveIn(reg, dl)
    ensures Cycle(m, prog, c).Crash? <==> MachineStep(prog, MachineOf(m, c)).Stuck?
    ensures Cycle(m, prog, c).Ok? ==> CycleRight(m, prog, c, Cycle(m, prog, c).value)
  {
    hide Inv, Flat, Store, Load, Le, FromLe, Patch, Put, Get, Loaded32, Next, At, Translate;
    var pg := Page(c.pid, dl / m.pageSize);
    InvShape(m);
    AddressOfPage(m, c.pid, dl);
    if pg in m.ents && m.ents[pg].present {
      LoadRefines(m, c.pid, dl);
    } else {
      CycleWithoutPage(m, prog, c, dl);
      hide Cycle;
      FaultRight(m, prog, c, dl);
    }
  }

  lemma CycleStores(m: Memory, prog: Program, c: Context, dl: Word, reg: Register)
    requires Inv(m) && c.pid >= 0 && c.pid in m.count && InPage(prog, m.pageSize) && 0 <= c.pc < |prog|
    requires prog[c.pc].op == MoveOut(dl, reg)
    ensures Cycle(m, prog, c).Crash? <==> MachineStep(prog, MachineOf(m, c)).Stuck?
    ensures Cycle(m, prog, c).Ok? ==> CycleRight(m, prog, c, Cycle(m, prog, c).value)
  {
    hide Inv, Flat, Store, Load, Le, FromLe, Patch, Put, Get, Loaded32, Next, At, Translate;
    var pg := Page(c.pid, dl / m.pageSize);
    InvShape(m);
    AddressOfPage(m, c.pid, dl);
    if pg in m.ents && m.ents[pg].present {
      StoreRefines(m, c.pid, dl, Get(c.regs, reg));
    } else {
      CycleWithoutPage(m, prog, c, dl);
      hide Cycle;
      FaultRight(m, prog, c, dl);
    }
  }

  /** A fault on an absent page of the process is right. */
  lemma FaultRight(m: Memory, prog: Program, c: Context, dl: Word)
    requires Inv(m) && c.pid >= 0 && c.pid in m.count && 0 <= c.pc < |prog| && m.pageSize > 0
    requires (prog[c.pc].op.MoveIn? || prog[c.pc].op.MoveOut?) && prog[c.pc].op.address == dl
    requires dl % m.pageSize + 4 <= m.pageSize
    ensures var pg := Page(c.pid, dl / m.pageSize);
            && (pg !in m.ents ==> MachineStep(prog, MachineOf(m, c)).Stuck?)
            && (pg in m.ents && !m.ents[pg].present ==>
                  !MachineStep(prog, MachineOf(m, c)).Stuck?
                  && CycleRight(m, prog, c, Cycled(
                       c.(instruction := prog[c.pc].text, faultPage := Signed(pg.index),
                          lastCode := if prog[c.pc].op.MoveIn? then MOV_IN else MOV_OUT), m, true)))
  {
    hide Inv, Flat, Le, FromLe, Patch, Put, Get, Loaded32, Next, At;
    AddressOfPage(m, c.pid, dl);
  }

  /** r is what the flat machine does from (m, c), without a page fault. */
  ghost predicate CompletesAs(m: Memory, prog: Program, c: Context, r: Cycled)
    requires Inv(m) && c.pid >= 0 && c.pid in m.count
  {
    && !r.pageFault && Inv(r.m) && r.ctx.pid == c.pid && OthersKept(m, r.m, c.pid)
    && MachineStep(prog, MachineOf(m, c)) == Runs(MachineOf(r.m, r.ctx))
  }

  /** The fault f of context c has been served, giving memory n. */
  ghost predicate Served(m: Memory, prog: Program, c: Context, f: Cycled, n: Memory)
    requires Inv(m)
  {
    Cycle(m, prog, c) == Ok(f) && f.pageFault && f.ctx.faultPage >= 0
    && ServeFault(m, Page(c.pid, f.ctx.faultPage)) == Ok(n)
  }

  lemma FaultServed(m: Memory, prog: Program, c: Context, f: Cycled, n: Memory)
    requires Inv(m) && c.pid >= 0 && c.pid in m.count && InPage(prog, m.pageSize) && Served(m, prog, c, f, n)
    ensures Inv(n) && n.count == m.count && n.pageSize == m.pageSize
    ensures OthersKept(m, n, c.pid) && Flat(n, c.pid) == Flat(m, c.pid)
    ensures 0 <= c.pc < |prog| && (prog[c.pc].op.MoveIn? || prog[c.pc].op.MoveOut?)
    ensures PresentOperand(n, prog, c)
  {
    hide Inv, Flat, ServeFault, MachineStep, Cycle, Contents;
    CycleRefines(m, prog, c);
    FaultedWhere(m, prog, c);
    var pg := Page(c.pid, f.ctx.faultPage);
    ServeFaultKeeps(m, pg);
    ServeFaultCount(m, pg);
    SameContentsFlat(m, n, c.pid);
    SignedNonNegative(prog[c.pc].op.address / m.pageSize);
  }

  predicate PresentOperand(m: Memory, prog: Program, c: Context) {
    && m.pageSize > 0 && c.pid >= 0 && 0 <= c.pc < |prog|
    && (prog[c.pc].op.MoveIn? || prog[c.pc].op.MoveOut?)
    && var pg := Page(c.pid, prog[c.pc].op.address / m.pageSize);
       pg in m.ents && m.ents[pg].present
  }

  /** Fault restart: an instruction that faults has changed nothing; once its page has
      been loaded, retrying it from the saved context does not fault again and has exactly
      the effect it would have had on the flat machine in the first place. */
  lemma FaultRestart(m: Memory, prog: Program, c: Context, f: Cycled, n: Memory, again: Context)
    requires Inv(m) && c.pid >= 0 && c.pid in m.count && InPage(prog, m.pageSize) && Served(m, prog, c, f, n)
    requires again.pid == c.pid && again.regs == c.regs && again.pc == c.pc
    ensures Inv(n) && OthersKept(m, n, c.pid) && MachineOf(n, again) == MachineOf(m, c)
    ensures Cycle(n, prog, again).Ok? && CompletesAs(n, prog, again, Cycle(n, prog, again).value)
  {
    hide Inv, Flat, ServeFault, Cycle, MachineStep, OthersKept, PresentOperand;
    FaultServed(m, prog, c, f, n);
    CycleRefines(m, prog, c);
    CycleRefines(n, prog, again);
    assert PresentOperand(n, prog, again) by { SamePc(n, prog, c, again); }
    NoFaultWhenPresent(n, prog, again);
  }

  lemma SamePc(m: Memory, prog: Program, c: Context, d: Context)
    requires PresentOperand(m, prog, c) && c.pid == d.pid && c.pc == d.pc
    ensures PresentOperand(m, prog, d)
  {
  }

  lemma SignedNonNegative(w: Word)
    requires Signed(w) >= 0
    ensures Signed(w) == w
  {
  }

  lemma ServeFaultCount(m: Memory, pg: Page)
    requires Inv(m) && ServeFault(m, pg).Ok?
    ensures ServeFault(m, pg).value.count == m.count && ServeFault(m, pg).value.pageSize == m.pageSize
  {
    hide Shape, Tables, Frames, SwapOwned, Queue, Stamps, Clean, EntryOk;
    if pg in m.ents && FirstFree(m.owners) == |m.owners| {
      VictimResident(m, Victim(m).value);
    }
  }

  /** A fault comes from a memory instruction and names the page of its operand. */
  lemma FaultedWhere(m: Memory, prog: Program, c: Context)
    requires Inv(m) && c.pid >= 0 && c.pid in m.count && InPage(prog, m.pageSize)
    requires Cycle(m, prog, c).Ok? && Cycle(m, prog, c).value.pageFault
    ensures 0 <= c.pc < |prog| && (prog[c.pc].op.MoveIn? || prog[c.pc].op.MoveOut?)
    ensures Cycle(m, prog, c).value.ctx.faultPage == Signed(prog[c.pc].op.address / m.pageSize)
  {
    hide Inv, Store, Load, Put, Get;
    InvShape(m);
  }

  lemma NoFaultWhenPresent(m: Memory, prog: Program, c: Context)
    requires Inv(m) && PresentOperand(m, prog, c)
    ensures Cycle(m, prog, c).Ok? ==> !Cycle(m, prog, c).value.pageFault
  {
    hide Inv, Store, Load, Put, Get;
  }

  // --------------------------------------------------------------- file operands

  /** atoi of a text that starts with digits, after acc. */
  function Atoi(text: Bytes, acc: nat): nat {
    if text == [] || !(48 <= text[0] < 58) then acc else Atoi(text[1..], acc * 10 + (text[0] - 48))
  }

  lemma {:induction false} AtoiDigits(n: nat, tail: Bytes)
    ensures Atoi(Digits(n) + tail, 0) == Atoi(tail, n)
  {
    if n < 10 {
      assert ([48 + n] + tail)[1..] == tail;
    } else {
      var last: Bytes := [48 + n % 10];
      assert Digits(n) + tail == Digits(n / 10) + (last + tail);
      AtoiDigits(n / 10, last + tail);
      assert (last + tail)[1..] == tail;
    }
  }

  /** Physical address df is in the frame that holds pg. */
  ghost predicate Reaches(m: Memory, df: nat, pg: Page)
    requires Shape(m) && Tables(m)
  {
    df < |m.ram| && (FrameOfAddress(m, df); PageAt(m, df / m.pageSize) == Some(pg))
  }

  /** A file instruction on page pg at offset off: a fault that changed nothing, or a text
      that reads, with atoi, as the address of that byte in the frame that holds pg. */
  ghost predicate FileCycleRight(m: Memory, c: Context, pg: Page, off: nat, r: Cycled)
    requires Inv(m) && Shape(m) && Tables(m) && pg in m.ents && c.pid >= 0 && c.pid in m.count
  {
    && r.m == m && r.ctx.pid == c.pid && (r.pageFault <==> !m.ents[pg].present)
    && if r.pageFault then MachineOf(m, r.ctx) == MachineOf(m, c) && (pg.index < WORD ==> r.ctx.faultPage == Signed(pg.index))
       else
         var df := Atoi(r.ctx.instruction.param2, 0);
         m.ents[pg].frame >= 0 && df == At(m.pageSize, m.ents[pg].frame, off) && Reaches(m, df, pg)
  }

  /** What a process names in F_READ or F_WRITE reaches the filesystem process as the
      physical address of that byte of its page. */
  lemma FileOperandArrives(m: Memory, prog: Program, c: Context, dl: Word, index: nat)
    requires Inv(m) && Shape(m) && Tables(m) && c.pid >= 0 && c.pid in m.count && 0 <= c.pc < |prog|
    requires prog[c.pc].op == FileRead(dl) || prog[c.pc].op == FileWrite(dl)
    requires index == PageNumber(dl, m.pageSize)
    ensures Cycle(m, prog, c).Crash? <==> Page(c.pid, index) !in m.ents
    ensures Cycle(m, prog, c).Ok? ==>
              FileCycleRight(m, c, Page(c.pid, index), dl % m.pageSize, Cycle(m, prog, c).value)
  {
    hide Inv, Shape, Tables, Flat, PageAt, At, Digits, Atoi, Reaches;
    var pg := Page(c.pid, index);
    InvShape(m);
    JoinAddress(m.pageSize, dl);
    if pg in m.ents && m.ents[pg].present {
      AddressFound(m, pg, dl % m.pageSize);
      var df := At(m.pageSize, m.ents[pg].frame, dl % m.pageSize);
      AtoiDigits(df, [0]);
      AtoiEnd(df);
    }
  }

  lemma AtoiEnd(n: nat)
    ensures Atoi([0], n) == n
  {
  }

  /** A physical address inside a resident page leads back to it. */
  lemma AddressFound(m: Memory, pg: Page, off: nat)
    requires Inv(m) && Shape(m) && Tables(m) && pg in m.ents && m.ents[pg].present && off < m.pageSize
    ensures m.ents[pg].frame >= 0 && Reaches(m, At(m.pageSize, m.ents[pg].frame, off), pg)
  {
    hide Frames, SwapOwned, Queue, Stamps, Clean, FindFrame, PageAt;
    FrameNonNegative(m, pg);
    FrameInside(|m.owners|, m.pageSize, m.ents[pg].frame);
    SplitAddress(m.pageSize, m.ents[pg].frame, off);
    PageAtHolder(m, pg);
  }
}
