/** One burst of the CPU on a context: cycles until a system call, a page fault or an
    interrupt (cpu/src/cpu.c, main and obtener_motivo_desalojo). */
module Bursts {
  import opened Words
  import opened Paging
  import opened Access
  import opened FlatView
  import opened Codec
  import opened Cpu

  type Reason = r: nat | r < 3

  /** n cycles in a row. */
  ghost function Cycles(m: Memory, prog: Program, c: Context, n: nat): Outcome<Cycled>
    requires Inv(m)
  {
    if n == 0 then Ok(Cycled(c, m, false))
    else
      match Cycles(m, prog, c, n - 1)
      case Crash => Crash
      case Ok(r) => if Inv(r.m) then Cycle(r.m, prog, r.ctx) else Crash
  }

  /** The loop guard without the interrupts: !es_syscall() && !page_fault. */
  predicate Stops(r: Cycled) {
    r.pageFault || IsSyscall(r.ctx.lastCode)
  }

  predicate Arrived(arrivals: seq<seq<Reason>>, r: Reason) {
    exists j :: 0 <= j < |arrivals| && r in arrivals[j]
  }

  predicate AnyArrived(arrivals: seq<seq<Reason>>) {
    Arrived(arrivals, 0) || Arrived(arrivals, 1) || Arrived(arrivals, 2)
  }

  /** Why a burst that left r ended. The reasons are numbers: 0 for the end of the quantum, 1
      for the end of the process, 2 for a new process, 3 for a system call and 4 for a page
      fault, which goes before a system call, which goes before the interrupts, of which the
      one with the least number is reported. */
  ghost predicate Explains(r: Cycled, arrivals: seq<seq<Reason>>, reason: Word) {
    if r.pageFault then reason == 4
    else if r.ctx.lastCode in {4, 5, 6, 9, 11, 12, 13, 14, 15, 16} then reason == 3
    else
      && (exists j :: 0 <= j < |arrivals| && exists i :: 0 <= i < |arrivals[j]| && arrivals[j][i] == reason)
      && forall j :: 0 <= j < |arrivals| ==> forall i :: 0 <= i < |arrivals[j]| ==> arrivals[j][i] >= reason
  }

  /** obtener_motivo_desalojo. */
  function Motive(r: Cycled, arrivals: seq<seq<Reason>>): (reason: Word)
    ensures Stops(r) || AnyArrived(arrivals) ==> Explains(r, arrivals, reason)
    ensures !Stops(r) && !AnyArrived(arrivals) ==> reason == r.ctx.reason
  {
    if r.pageFault then PAGE_FAULT
    else if IsSyscall(r.ctx.lastCode) then SYSCALL
    else if Arrived(arrivals, 0) then INTERRUPT_FIN_QUANTUM
    else if Arrived(arrivals, 1) then INTERRUPT_FIN_PROCESO
    else if Arrived(arrivals, 2) then INTERRUPT_NUEVO_PROCESO
    else r.ctx.reason
  }

  /** The burst of context c ends after exactly n cycles, with arrivals[j] the interrupts
      seen before the j-th look at the guard. */
  ghost predicate EndsAt(m: Memory, prog: Program, c: Context, arrivals: seq<seq<Reason>>, n: nat)
    requires Inv(m)
  {
    && n < |arrivals| && Cycles(m, prog, c, n).Ok?
    && (Stops(Cycles(m, prog, c, n).value) || AnyArrived(arrivals[..n + 1]))
    && forall j :: 0 <= j < n ==> GoesOn(m, prog, c, arrivals, j)
  }

  /** The burst dies in its n-th cycle. */
  ghost predicate DiesAt(m: Memory, prog: Program, c: Context, arrivals: seq<seq<Reason>>, n: nat)
    requires Inv(m)
  {
    && 0 < n <= |arrivals| && Cycles(m, prog, c, n).Crash?
    && forall j :: 0 <= j < n ==> GoesOn(m, prog, c, arrivals, j)
  }

  ghost predicate GoesOn(m: Memory, prog: Program, c: Context, arrivals: seq<seq<Reason>>, j: nat)
    requires Inv(m) && j < |arrivals|
  {
    Cycles(m, prog, c, j).Ok? && !Stops(Cycles(m, prog, c, j).value) && !AnyArrived(arrivals[..j + 1])
  }

  /** n instructions of the flat machine. */
  function FlatRun(prog: Program, s: Machine, n: nat): Option<Machine> {
    if n == 0 then Some(s)
    else
      match FlatRun(prog, s, n - 1)
      case None => None
      case Some(u) =>
        match MachineStep(prog, u)
        case Stuck => None
        case Halted(v) => Some(v)
        case Runs(v) => Some(v)
  }

  /** r is what some number of whole instructions of the flat machine leave. */
  ghost predicate BurstRight(m: Memory, prog: Program, c: Context, n: nat, r: Cycled)
    requires Inv(m) && c.pid >= 0 && c.pid in m.count
  {
    && Inv(r.m) && r.ctx.pid == c.pid && OthersKept(m, r.m, c.pid)
    && r.m.pageSize == m.pageSize && (r.pageFault ==> n > 0)
    && FlatRun(prog, MachineOf(m, c), if r.pageFault then n - 1 else n) == Some(MachineOf(r.m, r.ctx))
  }

  /** A burst is whole instructions of the flat machine: all of its cycles, or all but the
      last when that one faulted; no other process sees anything. */
  lemma {:induction false} BurstIsFlat(m: Memory, prog: Program, c: Context, arrivals: seq<seq<Reason>>, n: nat)
    requires Inv(m) && c.pid >= 0 && c.pid in m.count && InPage(prog, m.pageSize)
    requires n < |arrivals| && forall j :: 0 <= j < n ==> GoesOn(m, prog, c, arrivals, j)
    ensures Cycles(m, prog, c, n).Ok? ==> BurstRight(m, prog, c, n, Cycles(m, prog, c, n).value)
  {
    hide Inv, Flat, MachineStep, Cycle;
    if n > 0 {
      BurstIsFlat(m, prog, c, arrivals, n - 1);
      assert GoesOn(m, prog, c, arrivals, n - 1);
      var r := Cycles(m, prog, c, n - 1).value;
      CycleRefines(r.m, prog, r.ctx);
      if Cycle(r.m, prog, r.ctx).Ok? {
        CycleSize(r.m, prog, r.ctx);
      }
    }
  }

  /** Whatever the context, a burst keeps the memory invariant. */
  lemma {:induction false} BurstKeepsInv(m: Memory, prog: Program, c: Context, n: nat)
    requires Inv(m) && OperandsInPage(prog, m.pageSize) && Cycles(m, prog, c, n).Ok?
    ensures Inv(Cycles(m, prog, c, n).value.m) && Cycles(m, prog, c, n).value.m.pageSize == m.pageSize
  {
    hide Inv, Cycle;
    if n > 0 {
      BurstKeepsInv(m, prog, c, n - 1);
      var r := Cycles(m, prog, c, n - 1).value;
      CycleKeepsInv(r.m, prog, r.ctx);
    }
  }

  lemma CycleSize(m: Memory, prog: Program, c: Context)
    requires Inv(m) && Cycle(m, prog, c).Ok?
    ensures Cycle(m, prog, c).value.m.pageSize == m.pageSize
  {
    hide Inv, Translate, Put, Get, PageAt, Patch, Le, FromLe, Loaded32;
  }

  /** Seen from the flat machine: a burst that ends has run whole instructions of it, and a
      burst that has not stopped before its n-th cycle dies there exactly when the flat
      machine is stuck there. */
  lemma BurstOutcome(m: Memory, prog: Program, c: Context, arrivals: seq<seq<Reason>>, n: nat)
    requires Inv(m) && c.pid >= 0 && c.pid in m.count && InPage(prog, m.pageSize)
    ensures EndsAt(m, prog, c, arrivals, n) ==> BurstRight(m, prog, c, n, Cycles(m, prog, c, n).value)
    ensures 0 < n <= |arrivals| && (forall j :: 0 <= j < n ==> GoesOn(m, prog, c, arrivals, j)) ==>
              (DiesAt(m, prog, c, arrivals, n) <==> FlatRun(prog, MachineOf(m, c), n) == None)
  {
    hide Inv, Flat, MachineStep, Cycle, GoesOn;
    if EndsAt(m, prog, c, arrivals, n) {
      BurstIsFlat(m, prog, c, arrivals, n);
    }
    if 0 < n <= |arrivals| && forall j :: 0 <= j < n ==> GoesOn(m, prog, c, arrivals, j) {
      BurstDies(m, prog, c, arrivals, n);
    }
  }

  lemma BurstDies(m: Memory, prog: Program, c: Context, arrivals: seq<seq<Reason>>, n: nat)
    requires Inv(m) && c.pid >= 0 && c.pid in m.count && InPage(prog, m.pageSize)
    requires 0 < n <= |arrivals| && forall j :: 0 <= j < n ==> GoesOn(m, prog, c, arrivals, j)
    ensures Cycles(m, prog, c, n).Crash? <==> FlatRun(prog, MachineOf(m, c), n) == None
  {
    hide Inv, Flat, MachineStep, Cycle;
    assert GoesOn(m, prog, c, arrivals, n - 1);
    BurstIsFlat(m, prog, c, arrivals, n - 1);
    var r := Cycles(m, prog, c, n - 1).value;
    CycleRefines(r.m, prog, r.ctx);
  }

  /** Two bursts cannot end at different places. */
  lemma EndsOnce(m: Memory, prog: Program, c: Context, arrivals: seq<seq<Reason>>, n: nat, k: nat)
    requires Inv(m) && EndsAt(m, prog, c, arrivals, n)
    ensures EndsAt(m, prog, c, arrivals, k) ==> n == k
    ensures !DiesAt(m, prog, c, arrivals, k)
  {
    hide Inv, Cycle, AnyArrived, Stops;
    if n < k {
      assert !GoesOn(m, prog, c, arrivals, n);
    } else if k < n {
      assert GoesOn(m, prog, c, arrivals, k);
    }
  }

  // ---------------------------------------------------------------------- the guard

  /** Nothing stops the loop at its j-th look: no page fault, no system call, and no
      interrupt so far. */
  ghost predicate NothingSeen(r: Cycled, arrivals: seq<seq<Reason>>, j: nat)
    requires j < |arrivals|
  {
    && !r.pageFault && r.ctx.lastCode !in {4, 5, 6, 9, 11, 12, 13, 14, 15, 16}
    && forall i :: 0 <= i <= j ==> arrivals[i] == []
  }

  /** The loop is still running after its j-th look. */
  ghost predicate LooksOn(m: Memory, prog: Program, c: Context, arrivals: seq<seq<Reason>>, j: nat)
    requires Inv(m) && j < |arrivals|
  {
    Cycles(m, prog, c, j).Ok? && NothingSeen(Cycles(m, prog, c, j).value, arrivals, j)
  }

  /** A burst ends at the first look that finds something. */
  lemma EndsAtIff(m: Memory, prog: Program, c: Context, arrivals: seq<seq<Reason>>, n: nat)
    requires Inv(m)
    ensures EndsAt(m, prog, c, arrivals, n) <==>
              && n < |arrivals| && Cycles(m, prog, c, n).Ok? && !LooksOn(m, prog, c, arrivals, n)
              && forall j :: 0 <= j < n ==> LooksOn(m, prog, c, arrivals, j)
  {
    hide Inv, Cycles, NothingSeen, Stops, AnyArrived;
    forall j: nat | j < |arrivals| ensures GoesOn(m, prog, c, arrivals, j) <==> LooksOn(m, prog, c, arrivals, j) {
      if Cycles(m, prog, c, j).Ok? {
        LookFinds(Cycles(m, prog, c, j).value, arrivals, j);
      }
    }
    hide GoesOn, LooksOn;
    LastLook(m, prog, c, arrivals, n);
  }

  lemma LastLook(m: Memory, prog: Program, c: Context, arrivals: seq<seq<Reason>>, n: nat)
    requires Inv(m)
    ensures EndsAt(m, prog, c, arrivals, n) <==>
              && n < |arrivals| && Cycles(m, prog, c, n).Ok? && !GoesOn(m, prog, c, arrivals, n)
              && forall j :: 0 <= j < n ==> GoesOn(m, prog, c, arrivals, j)
  {
    hide Inv, Cycles, Stops, AnyArrived;
  }

  lemma LookFinds(r: Cycled, arrivals: seq<seq<Reason>>, j: nat)
    requires j < |arrivals|
    ensures NothingSeen(r, arrivals, j) <==> !Stops(r) && !AnyArrived(arrivals[..j + 1])
  {
    hide AnyArrived;
    var seen := arrivals[..j + 1];
    SomeArrived(seen);
    assert forall i :: 0 <= i <= j ==> seen[i] == arrivals[i];
  }

  lemma SomeArrived(arrivals: seq<seq<Reason>>)
    ensures AnyArrived(arrivals) <==> exists i :: 0 <= i < |arrivals| && arrivals[i] != []
  {
    forall i | 0 <= i < |arrivals| && arrivals[i] != [] ensures AnyArrived(arrivals) {
      assert Arrived(arrivals, arrivals[i][0]);
    }
  }
}
