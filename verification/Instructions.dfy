/** What each instruction does, in terms of the four registers, the bytes of memory and the
    numbers in the messages: the meaning that the CPU and the flat machine both have. */
module Instructions {
  import opened Words
  import opened Paging
  import opened Access
  import opened FlatView
  import opened Codec
  import opened Cpu
  import opened System

  // ------------------------------------------------------------------- vocabulary

  /** The register named reg is v. */
  predicate HasValue(r: Registers, reg: Register, v: Word) {
    match reg case AX => r.ax == v case BX => r.bx == v case CX => r.cx == v case DX => r.dx == v
  }

  /** s is r but for the register named reg. */
  predicate OnlyIn(r: Registers, s: Registers, reg: Register) {
    && (reg != AX ==> s.ax == r.ax) && (reg != BX ==> s.bx == r.bx)
    && (reg != CX ==> s.cx == r.cx) && (reg != DX ==> s.dx == r.dx)
  }

  /** The int that stands for x on 32 bits. */
  predicate Wraps(i: Int32, x: int) {
    i == x || i == x - 0x1_0000_0000
  }

  predicate OnMemory(op: Instruction) {
    op.MoveIn? || op.MoveOut?
  }

  predicate OnFile(op: Instruction) {
    op.FileRead? || op.FileWrite?
  }

  // ------------------------------------------------------------------ the flat machine

  /** The registers after op. */
  ghost predicate Computes(op: Instruction, r: Registers, mem: Bytes, s: Registers) {
    match op
    case Set(reg, v) => OnlyIn(r, s, reg) && HasValue(s, reg, v)
    case Sum(d, o) =>
      OnlyIn(r, s, d)
      && forall x: Word, y: Word :: HasValue(r, d, x) && HasValue(r, o, y) ==>
           HasValue(s, d, if x + y < 0x1_0000_0000 then x + y else x + y - 0x1_0000_0000)
    case Sub(d, o) =>
      OnlyIn(r, s, d)
      && forall x: Word, y: Word :: HasValue(r, d, x) && HasValue(r, o, y) ==>
           HasValue(s, d, if x >= y then x - y else x - y + 0x1_0000_0000)
    case MoveIn(reg, dl) =>
      OnlyIn(r, s, reg) && dl + 4 <= |mem|
      && forall w: Word :: WordAt(mem, dl, w) ==> if w == 0xFFFF_FFFF then s == r else HasValue(s, reg, w)
    case _ => s == r
  }

  /** A jump goes to the instruction after its target; everything else to the next one. */
  ghost predicate Goes(op: Instruction, r: Registers, pc: Int32, next: Int32) {
    if op.Jnz? && !HasValue(r, op.reg, 0) then Wraps(next, op.target + 1) else Wraps(next, pc + 1)
  }

  /** Only MOV_OUT changes memory: four bytes, the least significant first. */
  ghost predicate Stores(op: Instruction, r: Registers, mem: Bytes, n: Bytes) {
    if op.MoveOut? then
      && |n| == |mem| && op.address + 4 <= |mem|
      && (forall v: Word :: HasValue(r, op.reg, v) ==> WordAt(n, op.address, v))
      && (forall i :: 0 <= i < |mem| && !(op.address <= i < op.address + 4) ==> n[i] == mem[i])
    else n == mem
  }

  ghost predicate StepMeans(op: Instruction, s: Machine, t: Machine) {
    Computes(op, s.regs, s.mem, t.regs) && Goes(op, s.regs, s.pc, t.pc) && Stores(op, s.regs, s.mem, t.mem)
  }

  lemma NextPc(pc: Int32)
    ensures Wraps(Next(pc), pc + 1)
  {
  }

  lemma JumpPc(target: Word)
    ensures Wraps(Next(Signed(target)), target + 1)
  {
  }

  lemma RegisterIs(r: Registers, reg: Register, v: Word)
    ensures HasValue(r, reg, v) <==> v == Get(r, reg)
    ensures HasValue(Put(r, reg, v), reg, v) && OnlyIn(r, Put(r, reg, v), reg)
  {
  }

  lemma AddIs(a: Word, b: Word)
    ensures Add32(a, b) == if a + b < 0x1_0000_0000 then a + b else a + b - 0x1_0000_0000
    ensures Sub32(a, b) == if a >= b then a - b else a - b + 0x1_0000_0000
  {
  }

  lemma LoadMeans(s: Machine, reg: Register, dl: Word)
    requires dl + 4 <= |s.mem|
    ensures Computes(MoveIn(reg, dl), s.regs, s.mem, Loaded32(s.regs, reg, FromLe(s.mem[dl..dl + 4])))
  {
    hide FromLe, WordAt, Put, HasValue, OnlyIn;
    var v := FromLe(s.mem[dl..dl + 4]);
    RegisterIs(s.regs, reg, v);
    SameOnlyIn(s.regs, reg);
    forall w: Word | WordAt(s.mem, dl, w) ensures w == v {
      WordThere(s.mem, dl, w);
    }
  }

  lemma SameOnlyIn(r: Registers, reg: Register)
    ensures OnlyIn(r, r, reg)
  {
  }

  lemma StoreMeans(s: Machine, dl: Word, reg: Register)
    requires dl + 4 <= |s.mem|
    ensures Stores(MoveOut(dl, reg), s.regs, s.mem, Patch(s.mem, dl, Le(Get(s.regs, reg))))
  {
    hide Le, WordAt, Get, Patch, HasValue;
    var v := Get(s.regs, reg);
    PatchedWord(s.mem, dl, v);
    forall w: Word | HasValue(s.regs, reg, w) ensures w == v {
      RegisterIs(s.regs, reg, w);
    }
  }

  lemma ComputeMeans(op: Instruction, r: Registers, mem: Bytes)
    requires op.Set? || op.Sum? || op.Sub?
    ensures op.Set? ==> Computes(op, r, mem, Put(r, op.reg, op.value))
    ensures op.Sum? ==> Computes(op, r, mem, Put(r, op.dst, Add32(Get(r, op.dst), Get(r, op.src))))
    ensures op.Sub? ==> Computes(op, r, mem, Put(r, op.dst, Sub32(Get(r, op.dst), Get(r, op.src))))
  {
    hide Put, Get, HasValue, OnlyIn, Add32, Sub32;
    if op.Set? {
      RegisterIs(r, op.reg, op.value);
    } else {
      forall x: Word, y: Word | HasValue(r, op.dst, x) && HasValue(r, op.src, y)
        ensures x == Get(r, op.dst) && y == Get(r, op.src)
      {
        RegisterIs(r, op.dst, x);
        RegisterIs(r, op.src, y);
      }
      AddIs(Get(r, op.dst), Get(r, op.src));
      RegisterIs(r, op.dst, Add32(Get(r, op.dst), Get(r, op.src)));
      RegisterIs(r, op.dst, Sub32(Get(r, op.dst), Get(r, op.src)));
    }
  }

  /** The flat machine: where it is stuck, when it halts, and what it does. */
  lemma MachineMeans(prog: Program, s: Machine)
    ensures var r := MachineStep(prog, s);
            && (r.Stuck? <==>
                  !(0 <= s.pc < |prog|) || OnFile(prog[s.pc].op)
                  || (OnMemory(prog[s.pc].op) && prog[s.pc].op.address + 4 > |s.mem|))
            && (r.Halted? ==> 0 <= s.pc < |prog| && prog[s.pc].op.Exit? && StepMeans(prog[s.pc].op, s, r.last))
            && (r.Runs? ==> 0 <= s.pc < |prog| && !prog[s.pc].op.Exit? && StepMeans(prog[s.pc].op, s, r.next))
  {
    hide Le, FromLe, Patch, Put, Get, Loaded32, Add32, Sub32, Next, Signed, Wraps, HasValue, OnlyIn, WordAt, Computes, Stores;
    if 0 <= s.pc < |prog| {
      var op := prog[s.pc].op;
      NextPc(s.pc);
      Quiet(op, s.regs, s.mem);
      match op
      case Set(_, _) => ComputeMeans(op, s.regs, s.mem);
      case Sum(_, _) => ComputeMeans(op, s.regs, s.mem);
      case Sub(_, _) => ComputeMeans(op, s.regs, s.mem);
      case Jnz(reg, target) => JumpPc(target); RegisterIs(s.regs, reg, 0);
      case MoveIn(reg, dl) => if dl + 4 <= |s.mem| { LoadMeans(s, reg, dl); }
      case MoveOut(dl, reg) => if dl + 4 <= |s.mem| { StoreMeans(s, dl, reg); }
      case _ =>
    }
  }

  lemma Quiet(op: Instruction, r: Registers, mem: Bytes)
    ensures !op.Set? && !op.Sum? && !op.Sub? && !op.MoveIn? ==> Computes(op, r, mem, r)
    ensures !op.MoveOut? ==> Stores(op, r, mem, mem)
  {
  }

  // ------------------------------------------------------------------------- the CPU

  /** A completed cycle over paged memory means the same, on the process's flat array. */
  lemma CycleMeans(m: Memory, prog: Program, c: Context)
    requires Inv(m) && c.pid >= 0 && c.pid in m.count && InPage(prog, m.pageSize)
    requires Cycle(m, prog, c).Ok? && !Cycle(m, prog, c).value.pageFault
    ensures var r := Cycle(m, prog, c).value;
            && 0 <= c.pc < |prog| && Inv(r.m) && r.ctx.pid == c.pid && c.pid in r.m.count
            && StepMeans(prog[c.pc].op, Machine(c.regs, c.pc, Flat(m, c.pid)),
                         Machine(r.ctx.regs, r.ctx.pc, Flat(r.m, c.pid)))
  {
    hide Inv, Cycle, MachineStep, Flat, StepMeans;
    CycleRefines(m, prog, c);
    MachineMeans(prog, MachineOf(m, c));
  }

  /** The number under which an instruction is reported; a jump not taken and an instruction
      nobody knows leave the number there was. */
  predicate Reports(op: Instruction, jumps: bool, before: Word, after: Word) {
    match op
    case Set(_, _) => after == 0
    case Sum(_, _) => after == 1
    case Sub(_, _) => after == 2
    case Jnz(_, _) => after == if jumps then 3 else before
    case Call(Sleep) => after == 4
    case Call(Wait) => after == 5
    case Call(Signal) => after == 6
    case MoveIn(_, _) => after == 7
    case MoveOut(_, _) => after == 8
    case Call(Open) => after == 9
    case Call(Close) => after == 11
    case Call(Seek) => after == 12
    case FileRead(_) => after == 13
    case FileWrite(_) => after == 14
    case Call(Truncate) => after == 15
    case Exit => after == 16
    case Unknown => after == before
  }

  /** What a cycle leaves in the rest of the context, for the kernel to see. */
  ghost predicate Reported(line: Line, c: Context, r: Cycled) {
    var d := r.ctx;
    && d.pid == c.pid && d.frame == c.frame && (!r.pageFault ==> d.faultPage == c.faultPage)
    && Reports(line.op, line.op.Jnz? && !HasValue(c.regs, line.op.reg, 0), c.lastCode, d.lastCode)
    && d.reason == (if line.op.Call? || OnFile(line.op) then 3 else c.reason)
    && d.instruction.code == line.text.code && d.instruction.len1 == line.text.len1
    && d.instruction.param1 == line.text.param1
    && (!OnFile(line.op) || r.pageFault ==> d.instruction == line.text)
    && (r.pageFault ==> (OnMemory(line.op) || OnFile(line.op)) && d.regs == c.regs && d.pc == c.pc)
    && (OnFile(line.op) ==> d.regs == c.regs)
  }

  lemma CycleReports(m: Memory, prog: Program, c: Context)
    requires Inv(m) && Cycle(m, prog, c).Ok?
    ensures 0 <= c.pc < |prog| && Reported(prog[c.pc], c, Cycle(m, prog, c).value)
  {
    hide Inv, Translate, Load, Store, Put, Loaded32, Decimal, Next;
    var op := prog[c.pc].op;
    if op.Jnz? {
      RegisterIs(c.regs, op.reg, 0);
    }
  }

  /** After a completed cycle the CPU takes the instruction for a system call exactly when it
      is one, a file instruction or EXIT, unless the number was left from before. */
  lemma SystemCallIff(m: Memory, prog: Program, c: Context)
    requires Inv(m) && Cycle(m, prog, c).Ok?
    ensures 0 <= c.pc < |prog|
    ensures var op := prog[c.pc].op;
            IsSyscall(Cycle(m, prog, c).value.ctx.lastCode) <==>
              op.Call? || OnFile(op) || op.Exit?
              || ((op.Unknown? || (op.Jnz? && HasValue(c.regs, op.reg, 0))) && IsSyscall(c.lastCode))
  {
    hide Inv, Cycle, HasValue;
    CycleReports(m, prog, c);
  }

  /** What the kernel receives after a system call: its number, and the text of the line. */
  lemma CallArrives(m: Memory, prog: Program, c: Context)
    requires Inv(m) && 0 <= c.pc < |prog| && prog[c.pc].op.Call? && Sendable(prog[c.pc].text)
    ensures Cycle(m, prog, c).Ok? && !Cycle(m, prog, c).value.pageFault
    ensures var sent := Cycle(m, prog, c).value.ctx;
            && Sendable(sent.instruction) && Transmit(sent).Some?
            && var d := Transmit(sent).value;
               && d == sent && d.pid == c.pid && d.regs == c.regs && Wraps(d.pc, c.pc + 1)
               && d.reason == 3 && d.instruction == prog[c.pc].text
               && Reports(prog[c.pc].op, false, 0, d.lastCode)
  {
    hide Inv, Transmit, Sendable, Next, Reports;
    CycleReports(m, prog, c);
    NextPc(c.pc);
    CallCompletes(m, prog, c);
    var sent := Cycle(m, prog, c).value.ctx;
    TransmitExact(sent);
    ReportsCall(prog[c.pc].op, c.lastCode, sent.lastCode);
  }

  lemma CallCompletes(m: Memory, prog: Program, c: Context)
    requires Inv(m) && 0 <= c.pc < |prog| && prog[c.pc].op.Call?
    ensures Cycle(m, prog, c).Ok? && !Cycle(m, prog, c).value.pageFault
    ensures Cycle(m, prog, c).value.ctx.regs == c.regs && Cycle(m, prog, c).value.ctx.pc == Next(c.pc)
  {
    hide Inv, Next;
  }

  lemma ReportsCall(op: Instruction, before: Word, after: Word)
    requires op.Call? && Reports(op, false, before, after)
    ensures Reports(op, false, 0, after)
  {
  }

  // ---------------------------------------------------------------- file operands

  function Pow10(k: nat): (p: nat)
    ensures p > 0
  {
    if k == 0 then 1 else 10 * Pow10(k - 1)
  }

  /** The text is n in decimal: its characters are the digits of n, the first not zero unless
      it is the only one. */
  ghost predicate DecimalOf(text: Bytes, n: nat) {
    && |text| > 0 && n < Pow10(|text|) && (|text| > 1 ==> n >= Pow10(|text| - 1))
    && forall k: nat :: k < |text| ==> text[|text| - 1 - k] == 48 + n / Pow10(k) % 10
  }

  lemma {:induction false} DigitsExact(n: nat)
    ensures DecimalOf(Digits(n), n)
  {
    if n < 10 {
      assert Pow10(1) == 10 * Pow10(0);
    } else {
      DigitsExact(n / 10);
      LongerDecimal(Digits(n / 10), n);
    }
  }

  lemma LongerDecimal(front: Bytes, n: nat)
    requires n >= 10 && DecimalOf(front, n / 10)
    ensures DecimalOf(front + [48 + n % 10], n)
  {
    hide Pow10;
    var text: Bytes, len := front + [48 + n % 10], |front|;
    PowNext(len);
    PowNext(len - 1);
    PowNext(0);
    forall k: nat | k < |text| ensures text[|text| - 1 - k] == 48 + n / Pow10(k) % 10 {
      if k > 0 {
        PowNext(k - 1);
        assert text[|text| - 1 - k] == front[len - 1 - (k - 1)];
        DivideTwice(n, Pow10(k - 1));
      }
    }
  }

  lemma PowNext(k: nat)
    ensures Pow10(k + 1) == 10 * Pow10(k) && Pow10(0) == 1
  {
  }

  lemma DivideTwice(n: nat, p: nat)
    requires p > 0
    ensures n / 10 / p == n / (10 * p)
  {
    var q, r := n / 10 / p, n / 10 % p;
    assert n / 10 == q * p + r;
    assert n == 10 * (q * p + r) + n % 10 == q * (10 * p) + (10 * r + n % 10);
    QuotientIs(n, 10 * p, q, 10 * r + n % 10);
  }

  lemma QuotientIs(n: nat, d: nat, q: nat, r: nat)
    requires n == q * d + r && r < d
    ensures n / d == q
  {
    SplitAddress(d, q, r);
  }

  lemma {:induction false} PowGrows(a: nat, b: nat)
    requires a <= b
    ensures Pow10(a) <= Pow10(b)
  {
    if a < b {
      PowGrows(a, b - 1);
    }
  }

  lemma ShortText(df: nat)
    requires df < 0x8000_0000
    ensures |Digits(df)| <= 10
  {
    DigitsExact(df);
    var n := |Digits(df)|;
    assert Pow10(10) == 10_000_000_000;
    if n > 10 {
      PowGrows(10, n - 1);
    }
  }

  /** The text of a file instruction after translation: the physical address of its operand
      in decimal, with the final NUL, and its length. */
  ghost predicate FileText(i: RawInstruction, df: nat) {
    && |i.param2| == i.len2 && i.len2 > 1 && i.param2[i.len2 - 1] == 0
    && DecimalOf(i.param2[..i.len2 - 1], df) && Atoi(i.param2, 0) == df
  }

  /** F_READ and F_WRITE reach the kernel under their own numbers, with a text that says where
      in physical memory the operand is. */
  lemma FileCallArrives(m: Memory, prog: Program, c: Context, dl: Word, index: nat)
    requires Inv(m) && Shape(m) && Tables(m) && c.pid >= 0 && c.pid in m.count && 0 <= c.pc < |prog|
    requires prog[c.pc].op == Instruction.FileRead(dl) || prog[c.pc].op == Instruction.FileWrite(dl)
    requires index == PageNumber(dl, m.pageSize) && Page(c.pid, index) in m.ents && m.ents[Page(c.pid, index)].present
    requires |m.ram| <= 0x8000_0000 && Sendable(prog[c.pc].text) && prog[c.pc].text.len1 + 63 < 0x8000_0000
    ensures Cycle(m, prog, c).Ok? && !Cycle(m, prog, c).value.pageFault
    ensures var sent := Cycle(m, prog, c).value.ctx;
            && Sendable(sent.instruction) && Transmit(sent).Some?
            && var d := Transmit(sent).value;
               && d.pid == c.pid && d.regs == c.regs && Wraps(d.pc, c.pc + 1) && d.reason == 3
               && d.lastCode == (if prog[c.pc].op.FileRead? then 13 else 14)
               && d.instruction.code == prog[c.pc].text.code && d.instruction.param1 == prog[c.pc].text.param1
               && m.ents[Page(c.pid, index)].frame >= 0
               && FileText(d.instruction, At(m.pageSize, m.ents[Page(c.pid, index)].frame, dl % m.pageSize))
  {
    hide Inv, Shape, Tables, Transmit, Sendable, Next, Reports, Reaches, FileText, At;
    var pg := Page(c.pid, index);
    InvShape(m);
    CycleReports(m, prog, c);
    NextPc(c.pc);
    FileCompletes(m, prog, c, dl, index);
    var df := At(m.pageSize, m.ents[pg].frame, dl % m.pageSize);
    var sent := Cycle(m, prog, c).value.ctx;
    TextFits(prog[c.pc].text, df);
    TransmitExact(sent);
    FileReports(prog[c.pc].op, c.lastCode, sent.lastCode);
  }

  lemma FileReports(op: Instruction, before: Word, after: Word)
    requires OnFile(op) && Reports(op, false, before, after)
    ensures after == if op.FileRead? then 13 else 14
  {
  }

  /** The instruction with the address put in its text. */
  lemma FileCompletes(m: Memory, prog: Program, c: Context, dl: Word, index: nat)
    requires Inv(m) && Shape(m) && Tables(m) && c.pid >= 0 && c.pid in m.count && 0 <= c.pc < |prog|
    requires prog[c.pc].op == Instruction.FileRead(dl) || prog[c.pc].op == Instruction.FileWrite(dl)
    requires index == PageNumber(dl, m.pageSize) && Page(c.pid, index) in m.ents && m.ents[Page(c.pid, index)].present
    ensures Cycle(m, prog, c).Ok? && !Cycle(m, prog, c).value.pageFault
    ensures var r, pg := Cycle(m, prog, c).value, Page(c.pid, index);
            && r.ctx.regs == c.regs && r.ctx.pc == Next(c.pc) && m.ents[pg].frame >= 0
            && var df := At(m.pageSize, m.ents[pg].frame, dl % m.pageSize);
               df < |m.ram|
               && r.ctx.instruction == prog[c.pc].text.(len2 := |Decimal(df)| % WORD, param2 := Decimal(df))
  {
    hide Inv, Shape, Tables, Next, Decimal, At;
    var pg := Page(c.pid, index);
    InvShape(m);
    JoinAddress(m.pageSize, dl);
    AddressFound(m, pg, dl % m.pageSize);
  }

  lemma TextFits(text: RawInstruction, df: nat)
    requires df < 0x8000_0000 && Sendable(text) && text.len1 + 63 < 0x8000_0000
    ensures var i := text.(len2 := |Decimal(df)| % WORD, param2 := Decimal(df)); Sendable(i) && FileText(i, df)
  {
    hide Atoi, Digits, DecimalOf;
    ShortText(df);
    DigitsExact(df);
    AtoiDigits(df, [0]);
    AtoiEnd(df);
    assert Decimal(df)[..|Digits(df)|] == Digits(df);
  }
}
