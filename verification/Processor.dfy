/** The CPU process as it runs: contexto_actual, the page_fault flag and the interrupt flags
    updated in place (cpu/src/cpu.c, cpu/src/instructions.c), against the memory process. */
module Processor {
  import opened Words
  import opened Paging
  import opened Access
  import opened FlatView
  import opened Codec
  import opened Cpu
  import opened Bursts
  import opened MemoryProcess

  class CpuProcess {
    const memoria: Memoria
    const interrupciones: array<bool>
    var contexto: Option<Context>
    var pageFault: bool

    ghost predicate Wired()
      reads this, interrupciones, memoria, memoria.fs, memoria.fs.swap, memoria.fs.blocks
    {
      && memoria.Wired() && interrupciones.Length == 3
      && (interrupciones as object) != memoria.marcos && (interrupciones as object) != memoria.ram
      && (interrupciones as object) != memoria.fs.swap && (interrupciones as object) != memoria.fs.blocks
    }

    /** The three flags and the context, as one cycle leaves them. */
    ghost function Now(): Cycled
      reads this, memoria, memoria.marcos, memoria.ram, memoria.fs, memoria.fs.swap, memoria.fs.blocks
      requires contexto.Some?
    {
      Cycled(contexto.value, memoria.Abs(), pageFault)
    }

    constructor (m: Memoria)
      requires m.Wired()
      ensures Wired() && memoria == m && contexto == None && !pageFault && fresh(interrupciones)
      ensures forall r :: 0 <= r < 3 ==> !interrupciones[r]
    {
      memoria, contexto, pageFault := m, None, false;
      interrupciones := new bool[3](_ => false);
    }

    /** traducir_dl; -1 on a page fault, which raises the flag and names the page. */
    method TranslateDl(dl: Word) returns (r: Outcome<int>)
      requires Wired() && memoria.Valid() && contexto.Some?
      modifies this`contexto, this`pageFault
      ensures r.Crash? <==> Translate(memoria.Abs(), old(contexto.value.pid), dl).Crash?
      ensures r.Ok? ==>
                match Translate(memoria.Abs(), old(contexto.value.pid), dl).value
                case Physical(df) => r == Ok(df) && contexto == old(contexto) && pageFault == old(pageFault)
                case PageFault(page) =>
                  r == Ok(-1) && pageFault && contexto == Some(old(contexto.value).(faultPage := Signed(page)))
    {
      hide Inv, At;
      InvAll(memoria.Abs());
      var pid, index := contexto.value.pid, PageNumber(dl, memoria.pageSize);
      if pid < 0 {
        return Crash;
      }
      var marco := memoria.FrameOf(pid, index);
      match marco {
        case Crash =>
          return Crash;
        case Ok(None) =>
          pageFault := true;
          contexto := Some(contexto.value.(faultPage := Signed(index)));
          return Ok(-1);
        case Ok(Some(frame)) =>
          Offset(memoria.pageSize, dl);
          FrameNonNegative(memoria.Abs(), Page(pid, index));
          AtIs(memoria.pageSize, frame, dl % memoria.pageSize);
          return Ok(frame * memoria.pageSize + (dl - index * memoria.pageSize));
      }
    }

    /** _mov_in with obtener_valor_dir. */
    method MoveInto(reg: Register, dl: Word) returns (ok: bool)
      requires Wired() && memoria.Valid() && contexto.Some? && !pageFault
      modifies this`contexto, this`pageFault, memoria`clock, memoria`ents, memoria`touched
      ensures ok <==> ExecuteMoveIn(old(memoria.Abs()), old(contexto.value), reg, dl).Ok?
      ensures ok ==> Wired() && contexto.Some?
                     && ExecuteMoveIn(old(memoria.Abs()), old(contexto.value), reg, dl) == Ok(Now())
    {
      hide Inv, Translate, Put, Load;
      var df := TranslateDl(dl);
      if df.Crash? {
        return false;
      }
      if df.value != -1 {
        var v := memoria.LoadWord(df.value);
        if v.None? {
          return false;
        }
        if v.value != 0xFFFF_FFFF {
          contexto := Some(contexto.value.(regs := Put(contexto.value.regs, reg, v.value)));
        }
      }
      contexto := Some(contexto.value.(lastCode := MOV_IN));
      return true;
    }

    /** _mov_out with escribir_memoria. */
    method MoveFrom(dl: Word, reg: Register) returns (ok: bool)
      requires Wired() && memoria.Valid() && contexto.Some? && !pageFault
      modifies this`contexto, this`pageFault, memoria`clock, memoria`ents, memoria`touched, memoria.ram
      ensures ok <==> ExecuteMoveOut(old(memoria.Abs()), old(contexto.value), dl, reg).Ok?
      ensures ok ==> Wired() && contexto.Some?
                     && ExecuteMoveOut(old(memoria.Abs()), old(contexto.value), dl, reg) == Ok(Now())
    {
      hide Inv, Translate, Get, Store;
      var v := Get(contexto.value.regs, reg);
      var df := TranslateDl(dl);
      if df.Crash? {
        return false;
      }
      if df.value != -1 {
        var stored := memoria.StoreWord(df.value, v);
        if !stored {
          return false;
        }
      }
      contexto := Some(contexto.value.(lastCode := MOV_OUT));
      return true;
    }

    /** _f_read and _f_write with traducir_dl_fs. */
    method TranslateForFs(dl: Word, code: Word) returns (ok: bool)
      requires Wired() && memoria.Valid() && contexto.Some? && !pageFault
      modifies this`contexto, this`pageFault
      ensures ok <==> ExecuteFile(memoria.Abs(), old(contexto.value), dl, code).Ok?
      ensures ok ==> contexto.Some? && ExecuteFile(memoria.Abs(), old(contexto.value), dl, code) == Ok(Now())
    {
      hide Inv, Translate, Decimal;
      var df := TranslateDl(dl);
      if df.Crash? {
        return false;
      }
      if df.value != -1 {
        var text := Decimal(df.value);
        contexto := Some(contexto.value.(instruction :=
                           contexto.value.instruction.(len2 := |text| % WORD, param2 := text)));
      }
      contexto := Some(contexto.value.(lastCode := code, reason := SYSCALL));
      return true;
    }

    /** decode, and the instructions it dispatches to. */
    method Decode(op: Instruction) returns (ok: bool)
      requires Wired() && memoria.Valid() && contexto.Some? && !pageFault
      modifies this`contexto, this`pageFault, memoria`clock, memoria`ents, memoria`touched, memoria.ram
      ensures ok <==> Execute(old(memoria.Abs()), old(contexto.value), op).Ok?
      ensures ok ==> Wired() && contexto.Some? && Execute(old(memoria.Abs()), old(contexto.value), op) == Ok(Now())
    {
      hide Inv, ExecuteMoveIn, ExecuteMoveOut, ExecuteFile, Put, Get;
      var c := contexto.value;
      ok := true;
      match op {
        case Set(reg, v) =>
          contexto := Some(c.(regs := Put(c.regs, reg, v), lastCode := SET));
        case Sum(d, o) =>
          contexto := Some(c.(regs := Put(c.regs, d, Add32(Get(c.regs, d), Get(c.regs, o))), lastCode := SUM));
        case Sub(d, o) =>
          contexto := Some(c.(regs := Put(c.regs, d, Sub32(Get(c.regs, d), Get(c.regs, o))), lastCode := SUB));
        case Jnz(reg, target) =>
          if Get(c.regs, reg) != 0 {
            contexto := Some(c.(pc := Signed(target), lastCode := JNZ));
          }
        case MoveIn(reg, dl) =>
          ok := MoveInto(reg, dl);
        case MoveOut(dl, reg) =>
          ok := MoveFrom(dl, reg);
        case Exit =>
          contexto := Some(c.(lastCode := EXIT));
        case FileRead(dl) =>
          ok := TranslateForFs(dl, F_READ);
        case FileWrite(dl) =>
          ok := TranslateForFs(dl, F_WRITE);
        case Call(call) =>
          contexto := Some(c.(lastCode := CodeOf(call), reason := SYSCALL));
        case Unknown =>
      }
    }

    /** ejecutar_ciclo_instruccion; false where the CPU or the memory process dies. */
    method RunCycle(prog: Program) returns (ok: bool)
      requires Wired() && memoria.Valid() && contexto.Some? && !pageFault
      modifies this`contexto, this`pageFault, memoria`clock, memoria`ents, memoria`touched, memoria.ram
      ensures ok <==> Cycle(old(memoria.Abs()), prog, old(contexto.value)).Ok?
      ensures ok ==> Wired() && contexto.Some? && Cycle(old(memoria.Abs()), prog, old(contexto.value)) == Ok(Now())
    {
      hide Inv, Execute, Next;
      var pc := contexto.value.pc;
      if !(0 <= pc < |prog|) {
        return false;
      }
      contexto := Some(contexto.value.(instruction := prog[pc].text));
      ok := Decode(prog[pc].op);
      if ok && !pageFault {
        contexto := Some(contexto.value.(pc := Next(contexto.value.pc)));
      }
    }

    ghost predicate FlagsAre(arrivals: seq<seq<Reason>>)
      reads interrupciones
    {
      interrupciones.Length == 3 && forall r: Reason :: interrupciones[r] == Arrived(arrivals, r)
    }

    /** recibir_interrupt while a context is on the CPU: the flags of what arrives are raised. */
    method Notice(reasons: seq<Reason>, ghost earlier: seq<seq<Reason>>)
      requires contexto.Some? && FlagsAre(earlier)
      modifies interrupciones
      ensures FlagsAre(earlier + [reasons])
    {
      for i := 0 to |reasons|
        invariant forall r: Reason :: interrupciones[r] == (Arrived(earlier, r) || r in reasons[..i])
      {
        assert reasons[..i + 1] == reasons[..i] + [reasons[i]];
        interrupciones[reasons[i]] := true;
      }
      assert reasons[..|reasons|] == reasons;
      forall r: Reason ensures Arrived(earlier + [reasons], r) <==> Arrived(earlier, r) || r in reasons {
        ArrivedLater(earlier, reasons, r);
      }
    }

    /** obtener_motivo_desalojo: sets the reason, or leaves it. */
    method SetReason(ghost arrivals: seq<seq<Reason>>)
      requires Wired() && contexto.Some? && FlagsAre(arrivals)
      modifies this`contexto
      ensures contexto == Some(old(contexto.value).(reason := Motive(old(Now()), arrivals)))
      ensures Stops(old(Now())) || AnyArrived(arrivals) ==> Explains(old(Now()), arrivals, contexto.value.reason)
    {
      hide Arrived, Memoria.Wired;
      var c := contexto.value;
      if pageFault {
        contexto := Some(c.(reason := PAGE_FAULT));
      } else if IsSyscall(c.lastCode) {
        contexto := Some(c.(reason := SYSCALL));
      } else if interrupciones[0] {
        contexto := Some(c.(reason := INTERRUPT_FIN_QUANTUM));
      } else if interrupciones[1] {
        contexto := Some(c.(reason := INTERRUPT_FIN_PROCESO));
      } else if interrupciones[2] {
        contexto := Some(c.(reason := INTERRUPT_NUEVO_PROCESO));
      }
    }

    /** The CPU idles with no context and every flag down. */
    ghost predicate AtRest()
      reads this, interrupciones
    {
      contexto == None && !pageFault && interrupciones.Length == 3 && FlagsAre([])
    }

    /** One more turn of the loop in main, and the interrupts that arrive after it. */
    method Turn(prog: Program, arrivals: seq<seq<Reason>>, k: nat) returns (ok: bool)
      requires Wired() && memoria.Valid() && contexto.Some? && !pageFault && k + 1 < |arrivals|
      requires FlagsAre(arrivals[..k + 1])
      modifies this`contexto, this`pageFault, interrupciones
      modifies memoria`clock, memoria`ents, memoria`touched, memoria.ram
      ensures ok <==> Cycle(old(memoria.Abs()), prog, old(contexto.value)).Ok?
      ensures ok ==> Wired() && contexto.Some? && Cycle(old(memoria.Abs()), prog, old(contexto.value)) == Ok(Now())
      ensures ok ==> FlagsAre(arrivals[..k + 2])
    {
      hide Inv, Cycle, Arrived;
      ok := RunCycle(prog);
      if ok {
        Notice(arrivals[k + 1], arrivals[..k + 1]);
        assert arrivals[..k + 1] + [arrivals[k + 1]] == arrivals[..k + 2];
      }
    }

    /** The loop in main: cycles until a system call, a page fault or an interrupt. */
    method Burst(prog: Program, arrivals: seq<seq<Reason>>) returns (ok: bool, ghost n: nat)
      requires Wired() && memoria.Valid() && contexto.Some? && !pageFault && OperandsInPage(prog, memoria.pageSize)
      requires |arrivals| > 0 && arrivals[|arrivals| - 1] != [] && FlagsAre(arrivals[..1])
      modifies this`contexto, this`pageFault, interrupciones
      modifies memoria`clock, memoria`ents, memoria`touched, memoria.ram
      ensures !ok ==> DiesAt(old(memoria.Abs()), prog, old(contexto.value), arrivals, n)
      ensures ok ==>
                && Wired() && memoria.Valid() && contexto.Some?
                && EndsAt(old(memoria.Abs()), prog, old(contexto.value), arrivals, n)
                && Cycles(old(memoria.Abs()), prog, old(contexto.value), n) == Ok(Now())
                && FlagsAre(arrivals[..n + 1])
    {
      hide Inv, Cycle, Flat, Arrived, FlagsAre, AnyArrived, OperandsInPage;
      ghost var m, c := memoria.Abs(), contexto.value;
      var k := 0;
      n := 0;
      var interrupted := HasInterrupt(arrivals[..1]);
      while !IsSyscall(contexto.value.lastCode) && !interrupted && !pageFault
        invariant k < |arrivals| && n == k && contexto.Some? && Wired() && memoria.Valid()
        invariant Cycles(m, prog, c, k) == Ok(Now())
        invariant FlagsAre(arrivals[..k + 1]) && interrupted == AnyArrived(arrivals[..k + 1])
        invariant forall j :: 0 <= j < k ==> GoesOn(m, prog, c, arrivals, j)
        decreases |arrivals| - k
      {
        assert GoesOn(m, prog, c, arrivals, k);
        LastArrives(arrivals, k);
        ok := Turn(prog, arrivals, k);
        n := n + 1;
        if !ok {
          return;
        }
        BurstKeepsInv(m, prog, c, k + 1);
        k := k + 1;
        interrupted := HasInterrupt(arrivals[..k + 1]);
      }
      ok := true;
    }

    /** A CONTEXTO message: run the context until a system call, a page fault or an
        interrupt, and send it back. arrivals[j] are the interrupts that arrive before the
        j-th look at the guard, and the last look finds one. The result is None where the
        CPU or the memory process dies. n counts the cycles. */
    method Attend(message: Bytes, prog: Program, arrivals: seq<seq<Reason>>)
      returns (reply: Option<Bytes>, ghost n: nat)
      requires Wired() && memoria.Valid() && AtRest() && OperandsInPage(prog, memoria.pageSize)
      requires |arrivals| > 0 && arrivals[|arrivals| - 1] != []
      modifies this`contexto, this`pageFault, interrupciones
      modifies memoria`clock, memoria`ents, memoria`touched, memoria.ram
      ensures DecodeContext(message).None? ==> reply.None?
      ensures reply.None? && DecodeContext(message).Some? ==>
                DiesAt(old(memoria.Abs()), prog, DecodeContext(message).value.(lastCode := NO_INSTRUCTION), arrivals, n)
      ensures reply.Some? ==>
                && Wired() && memoria.Valid() && AtRest() && DecodeContext(message).Some?
                && var c := DecodeContext(message).value.(lastCode := NO_INSTRUCTION);
                   EndsAt(old(memoria.Abs()), prog, c, arrivals, n)
                   && var r := Cycles(old(memoria.Abs()), prog, c, n).value;
                      memoria.Abs() == r.m
                      && reply.value == EncodeContext(r.ctx.(reason := Motive(r, arrivals[..n + 1])))
                      && exists reason :: Explains(r, arrivals[..n + 1], reason)
                                          && reply.value == EncodeContext(r.ctx.(reason := reason))
    {
      hide Inv, Cycles, OperandsInPage, EncodeContext, DecodeContext, FlagsAre, EndsAt, DiesAt, Motive;
      n := 0;
      var received := DecodeContext(message);
      if received.None? {
        return None, 0;
      }
      contexto := Some(received.value.(lastCode := NO_INSTRUCTION));
      Notice(arrivals[0], []);
      assert [] + [arrivals[0]] == arrivals[..1];
      var ok;
      ok, n := Burst(prog, arrivals);
      if !ok {
        return None, n;
      }
      EndsInside(old(memoria.Abs()), prog, received.value.(lastCode := NO_INSTRUCTION), arrivals, n);
      SetReason(arrivals[..n + 1]);
      assert Explains(old(Cycles(memoria.Abs(), prog, received.value.(lastCode := NO_INSTRUCTION), n)).value, arrivals[..n + 1],
                      contexto.value.reason);
      reply := Some(EncodeContext(contexto.value));
      contexto := None;
      ClearInterrupts();
    }

    /** hay_interrupciones. */
    method HasInterrupt(ghost arrivals: seq<seq<Reason>>) returns (r: bool)
      requires FlagsAre(arrivals)
      ensures r == AnyArrived(arrivals)
    {
      r := interrupciones[0] || interrupciones[1] || interrupciones[2];
    }

    /** limpiar_interrupciones. */
    method ClearInterrupts()
      requires interrupciones.Length == 3
      modifies this`pageFault, interrupciones
      ensures !pageFault && FlagsAre([])
    {
      interrupciones[0], interrupciones[1], interrupciones[2] := false, false, false;
      pageFault := false;
    }
  }

  lemma ArrivedLater(earlier: seq<seq<Reason>>, reasons: seq<Reason>, r: Reason)
    ensures Arrived(earlier + [reasons], r) <==> Arrived(earlier, r) || r in reasons
  {
    var all := earlier + [reasons];
    assert all[|earlier|] == reasons;
    if Arrived(earlier, r) {
      var j :| 0 <= j < |earlier| && r in earlier[j];
      assert all[j] == earlier[j];
    }
  }

  /** The last look at the guard finds an interrupt. */
  lemma LastArrives(arrivals: seq<seq<Reason>>, k: nat)
    requires k < |arrivals| && arrivals[|arrivals| - 1] != []
    ensures k + 1 == |arrivals| ==> AnyArrived(arrivals[..k + 1])
  {
    if k + 1 == |arrivals| {
      var seen := arrivals[..k + 1];
      assert seen[k] == arrivals[k] && arrivals[k][0] in seen[k];
    }
  }

  lemma EndsInside(m: Memory, prog: Program, c: Context, arrivals: seq<seq<Reason>>, n: nat)
    requires Inv(m) && EndsAt(m, prog, c, arrivals, n)
    ensures n < |arrivals| && Cycles(m, prog, c, n).Ok?
    ensures Stops(Cycles(m, prog, c, n).value) || AnyArrived(arrivals[..n + 1])
  {
  }

  lemma Offset(P: nat, dl: nat)
    requires P > 0
    ensures dl - dl / P * P == dl % P
  {
  }

  lemma AtIs(P: nat, f: nat, off: nat)
    ensures At(P, f, off) == f * P + off
  {
  }
}
