/** Whole runs of the kernel's resources, and the exact accounting of instances. */
module ResourceRuns {
  import opened Words
  import opened Resources

  // ---------------------------------------------------------------- exit and calls

  /** liberar_recursos: every resource in turn. */
  function ReleaseFrom(k: Kernel, p: nat, i: nat): (n: Kernel)
    requires KInv(k) && Idle(k, p)
    ensures KInv(n) && Idle(n, p) && n.names == k.names && n.held.Keys == k.held.Keys
    decreases |k.names| - i
  {
    if i >= |k.names| then k
    else
      ReleaseOneKeeps(k, p, k.names[i]);
      ReleaseFrom(ReleaseOne(k, p, k.names[i]), p, i + 1)
  }

  /** exit_pcb: release everything, then forget the process. */
  function Leave(k: Kernel, p: nat): Kernel
    requires KInv(k) && Idle(k, p)
  {
    var d := ReleaseFrom(k, p, 0);
    d.(held := d.held - {p})
  }

  /** cargar_recursos_totales. */
  function Nothing(names: seq<Name>): map<Name, nat> {
    map r | r in names :: 0
  }

  datatype Call = Spawn(pid: nat) | WaitOn(pid: nat, name: Name) | SignalOn(pid: nat, name: Name) | ExitOf(pid: nat)

  /** Only a running process, which waits for nothing, makes calls. */
  ghost predicate Enabled(k: Kernel, c: Call) {
    if c.Spawn? then c.pid !in k.held else Idle(k, c.pid)
  }

  /** WAIT and SIGNAL of an unknown resource, and SIGNAL without holding, end the process. */
  function Step(k: Kernel, c: Call): Kernel
    requires KInv(k) && Enabled(k, c)
  {
    match c
    case Spawn(p) => k.(held := k.held[p := Nothing(k.names)])
    case WaitOn(p, r) => if r in k.free then Wait(k, p, r) else Leave(k, p)
    case SignalOn(p, r) => if r in k.free && k.held[p][r] > 0 then Signal(k, p, r) else Leave(k, p)
    case ExitOf(p) => Leave(k, p)
  }

  lemma ForgetKeeps(d: Kernel, p: nat)
    requires KInv(d) && Idle(d, p)
    ensures KInv(d.(held := d.held - {p}))
  {
    var n := d.(held := d.held - {p});
    assert forall q, t :: Waits(n, q, t) <==> Waits(d, q, t);
    assert forall q :: q in n.held ==> q in d.held && n.held[q] == d.held[q];
  }

  lemma LeaveKeeps(k: Kernel, p: nat)
    requires KInv(k) && Idle(k, p)
    ensures KInv(Leave(k, p)) && Leave(k, p).names == k.names
  {
    hide KInv, Idle;
    ForgetKeeps(ReleaseFrom(k, p, 0), p);
  }

  lemma SpawnKeeps(k: Kernel, p: nat)
    requires KInv(k) && p !in k.held
    ensures KInv(k.(held := k.held[p := Nothing(k.names)]))
  {
    var n := k.(held := k.held[p := Nothing(k.names)]);
    assert forall q, t :: Waits(n, q, t) <==> Waits(k, q, t);
  }

  lemma WaitNames(k: Kernel, p: nat, r: Name)
    requires r in k.free && r in k.queue && p in k.held && r in k.held[p]
    ensures Wait(k, p, r).names == k.names
  {
  }

  lemma StepKeeps(k: Kernel, c: Call)
    requires KInv(k) && Enabled(k, c)
    ensures KInv(Step(k, c)) && Step(k, c).names == k.names
  {
    hide Wait, Leave;
    match c
    case Spawn(p) => SpawnKeeps(k, p);
    case WaitOn(p, r) =>
      if r in k.free { WaitKeeps(k, p, r); WaitNames(k, p, r); } else { LeaveKeeps(k, p); }
    case SignalOn(p, r) =>
      if r in k.free && k.held[p][r] > 0 { SignalKeeps(k, p, r); } else { LeaveKeeps(k, p); }
    case ExitOf(p) => LeaveKeeps(k, p);
  }

  // ------------------------------------------------------------------- accounting

  predicate Covers(held: map<nat, map<Name, nat>>, r: Name) {
    forall p :: p in held ==> r in held[p]
  }

  /** Instances of r in the hands of live processes. */
  ghost function Total(held: map<nat, map<Name, nat>>, r: Name): nat
    requires Covers(held, r)
    decreases |held|
  {
    if held == map[] then 0
    else
      var p :| p in held;
      held[p][r] + Total(held - {p}, r)
  }

  lemma {:induction false} TotalMinus(held: map<nat, map<Name, nat>>, r: Name, p: nat)
    requires Covers(held, r) && p in held
    ensures Total(held, r) == held[p][r] + Total(held - {p}, r)
    decreases |held|
  {
    var q :| q in held && Total(held, r) == held[q][r] + Total(held - {q}, r);
    if q != p {
      TotalMinus(held - {q}, r, p);
      TotalMinus(held - {p}, r, q);
      assert held - {q} - {p} == held - {p} - {q};
    }
  }

  lemma TotalUpdate(held: map<nat, map<Name, nat>>, r: Name, p: nat, h: map<Name, nat>)
    requires Covers(held, r) && r in h
    ensures p in held ==> Total(held[p := h], r) == Total(held, r) - held[p][r] + h[r]
    ensures p !in held ==> Total(held[p := h], r) == Total(held, r) + h[r]
  {
    TotalMinus(held[p := h], r, p);
    assert held[p := h] - {p} == held - {p};
    if p in held {
      TotalMinus(held, r, p);
    } else {
      assert held - {p} == held;
    }
  }

  /** All instances of r the kernel knows about: free or held. */
  ghost function Instances(k: Kernel, r: Name): nat
    requires KInv(k) && r in k.names
  {
    k.free[r] + Total(k.held, r)
  }

  /** 1 when the call is a SIGNAL that hands its instance to a waiter. */
  ghost function Woke(k: Kernel, c: Call, r: Name): nat
    requires KInv(k) && Enabled(k, c)
  {
    if c.SignalOn? && c.name == r && r in k.free && k.held[c.pid][r] > 0 && k.queue[r] != [] then 1 else 0
  }

  lemma GainTotal(k: Kernel, p: nat, r: Name, t: Name)
    requires Covers(k.held, r) && Covers(k.held, t) && p in k.held
    ensures Covers(Gain(k, p, r).held, t)
    ensures Total(Gain(k, p, r).held, t) == Total(k.held, t) + if t == r then 1 else 0
  {
    TotalUpdate(k.held, t, p, k.held[p][r := k.held[p][r] + 1]);
  }

  lemma Covered(k: Kernel, r: Name)
    requires KInv(k) && r in k.names
    ensures Covers(k.held, r) && r in k.free && r in k.queue
  {
  }

  lemma WakeInstances(k: Kernel, r: Name, t: Name)
    requires KInv(k) && r in k.names && t in k.names && r in k.queue && k.queue[r] != []
    ensures k.queue[r][0] in k.held && r in k.held[k.queue[r][0]] && KInv(Wake(k, r)) && Wake(k, r).names == k.names
    ensures Instances(Wake(k, r), t) == Instances(k, t) + if t == r then 1 else 0
  {
    hide KInv, RemoveFirst, Total, Covers;
    Covered(k, r);
    Covered(k, t);
    WakeKeeps(k, r);
    WakeShape(k, r);
    GainTotal(k, k.queue[r][0], r, t);
  }

  lemma WaitInstances(k: Kernel, p: nat, r: Name, t: Name)
    requires KInv(k) && Idle(k, p) && r in k.names && t in k.names
    requires p in k.held && r in k.free && r in k.queue && r in k.held[p]
    ensures KInv(Wait(k, p, r)) && Wait(k, p, r).names == k.names
    ensures Instances(Wait(k, p, r), t) == Instances(k, t)
  {
    hide KInv, Idle, Total, Covers;
    WaitKeeps(k, p, r);
    Covered(k, r);
    Covered(k, t);
    GainTotal(k, p, r, t);
  }

  lemma GiveBackInstances(k: Kernel, p: nat, r: Name, t: Name)
    requires KInv(k) && p in k.held && r in k.names && t in k.names && r in k.held[p] && k.held[p][r] > 0
    requires r in k.free
    ensures KInv(GiveBack(k, p, r)) && GiveBack(k, p, r).names == k.names
    ensures Instances(GiveBack(k, p, r), t) == Instances(k, t)
  {
    hide KInv, Total, Covers;
    Covered(k, t);
    KeysOf(k, p, r);
    KeysOf(k, p, t);
    SameQueues(k, GiveBack(k, p, r));
    TotalUpdate(k.held, t, p, k.held[p][r := k.held[p][r] - 1]);
  }

  lemma SignalInstances(k: Kernel, p: nat, r: Name, t: Name)
    requires KInv(k) && p in k.held && r in k.names && t in k.names && r in k.held[p] && k.held[p][r] > 0
    requires r in k.free && r in k.queue
    ensures KInv(Signal(k, p, r)) && Signal(k, p, r).names == k.names
    ensures Instances(Signal(k, p, r), t) == Instances(k, t) + if t == r && k.queue[r] != [] then 1 else 0
  {
    hide KInv, Total, Covers;
    GiveBackInstances(k, p, r, t);
    if k.queue[r] != [] {
      WakeInstances(GiveBack(k, p, r), r, t);
    }
  }

  lemma ReturnedInstances(k: Kernel, p: nat, r: Name, t: Name)
    requires KInv(k) && p in k.held && r in k.names && t in k.names && r in k.free && r in k.held[p]
    ensures KInv(Returned(k, p, r)) && Returned(k, p, r).names == k.names
    ensures Instances(Returned(k, p, r), t) == Instances(k, t)
  {
    hide KInv, Total, Covers;
    Covered(k, t);
    KeysOf(k, p, r);
    KeysOf(k, p, t);
    SameQueues(k, Returned(k, p, r));
    TotalUpdate(k.held, t, p, k.held[p][r := 0]);
  }

  lemma ReleaseInstances(k: Kernel, p: nat, r: Name, t: Name)
    requires KInv(k) && Idle(k, p) && r in k.names && t in k.names
    ensures KInv(ReleaseOne(k, p, r)) && ReleaseOne(k, p, r).names == k.names
    ensures Instances(ReleaseOne(k, p, r), t) == Instances(k, t)
  {
    hide KInv, Without, Waits, Total, Covers, Wake, WakeAndTake, Instances;
    KeysOf(k, p, r);
    ReleaseOneKeeps(k, p, r);
    RebuildOfIdle(k, p, r);
    ReturnedInstances(k, p, r, t);
    var g := Returned(k, p, r);
    assert Rebuilt(g, p, r) == g;
    if k.held[p][r] >= 1 && k.queue[r] != [] {
      WakeInstances(g, r, t);
      TakeInstances(g, r, t);
    }
  }

  lemma TakeInstances(k: Kernel, r: Name, t: Name)
    requires KInv(k) && r in k.names && t in k.names && r in k.queue && k.queue[r] != []
    requires r in k.free && k.free[r] > 0 && k.queue[r][0] in k.held && r in k.held[k.queue[r][0]]
    requires KInv(Wake(k, r)) && Wake(k, r).names == k.names
    ensures KInv(WakeAndTake(k, r)) && WakeAndTake(k, r).names == k.names
    ensures Instances(WakeAndTake(k, r), t) == Instances(Wake(k, r), t) - if t == r then 1 else 0
  {
    TakeKeeps(k, r);
    hide KInv, Wake, Covers, Total;
    WakeShape(k, r);
    Covered(Wake(k, r), t);
  }

  /** Releasing r empties the exiting process's count of r and no other of its counts. */
  lemma ReleasedHeld(k: Kernel, p: nat, r: Name, t: Name)
    requires KInv(k) && Idle(k, p) && r in k.names && t in k.names
    ensures t in k.held[p] && p in ReleaseOne(k, p, r).held && t in ReleaseOne(k, p, r).held[p]
    ensures ReleaseOne(k, p, r).held[p][t] == if t == r then 0 else k.held[p][t]
  {
    KeysOf(k, p, r);
    KeysOf(k, p, t);
    RebuildOfIdle(k, p, r);
    assert k.queue[r] != [] ==> Waits(k, k.queue[r][0], r);
    assert !Waits(k, p, r);
    hide KInv, Without, Idle, Waits;
  }

  lemma {:induction false} ReleaseFromHeld(k: Kernel, p: nat, i: nat, t: Name)
    requires KInv(k) && Idle(k, p) && t in k.names
    ensures t in k.held[p] && t in ReleaseFrom(k, p, i).held[p]
    ensures ReleaseFrom(k, p, i).held[p][t] <= k.held[p][t]
    ensures (exists j :: i <= j < |k.names| && k.names[j] == t) ==> ReleaseFrom(k, p, i).held[p][t] == 0
    decreases |k.names| - i
  {
    hide KInv, Idle, ReleaseOne;
    IdleCovered(k, p, t);
    if i < |k.names| {
      var r := k.names[i];
      ReleaseOneKeeps(k, p, r);
      ReleasedHeld(k, p, r, t);
      ReleaseFromHeld(ReleaseOne(k, p, r), p, i + 1, t);
    }
  }

  lemma IdleCovered(k: Kernel, p: nat, t: Name)
    requires KInv(k) && Idle(k, p) && t in k.names
    ensures p in k.held && t in k.held[p]
  {
  }

  lemma {:induction false} ReleaseFromInstances(k: Kernel, p: nat, i: nat, t: Name)
    requires KInv(k) && Idle(k, p) && t in k.names
    ensures Instances(ReleaseFrom(k, p, i), t) == Instances(k, t)
    decreases |k.names| - i
  {
    hide KInv, Idle, ReleaseOne, Instances;
    IdleCovered(k, p, t);
    if i < |k.names| {
      ReleaseOneKeeps(k, p, k.names[i]);
      ReleaseInstances(k, p, k.names[i], t);
      ReleaseFromInstances(ReleaseOne(k, p, k.names[i]), p, i + 1, t);
    }
  }

  lemma LeaveInstances(k: Kernel, p: nat, t: Name)
    requires KInv(k) && Idle(k, p) && t in k.names
    ensures KInv(Leave(k, p)) && Leave(k, p).names == k.names && Instances(Leave(k, p), t) == Instances(k, t)
  {
    hide KInv, Idle, ReleaseFrom, Total, Covers;
    LeaveKeeps(k, p);
    ReleaseFromInstances(k, p, 0, t);
    ReleaseFromHeld(k, p, 0, t);
    var d := ReleaseFrom(k, p, 0);
    IdleCovered(d, p, t);
    Covered(d, t);
    TotalMinus(d.held, t, p);
  }

  lemma SpawnInstances(k: Kernel, p: nat, t: Name)
    requires KInv(k) && p !in k.held && t in k.names
    ensures var n := k.(held := k.held[p := Nothing(k.names)]); KInv(n) && Instances(n, t) == Instances(k, t)
  {
    hide KInv, Total, Covers;
    SpawnKeeps(k, p);
    Covered(k, t);
    TotalUpdate(k.held, t, p, Nothing(k.names));
  }

  /** One call changes the number of instances only by handing one to a waiter in SIGNAL. */
  lemma StepInstances(k: Kernel, c: Call, t: Name)
    requires KInv(k) && Enabled(k, c) && t in k.names
    ensures KInv(Step(k, c)) && Step(k, c).names == k.names
    ensures Instances(Step(k, c), t) == Instances(k, t) + Woke(k, c, t)
  {
    StepKeeps(k, c);
    hide Leave, Instances, Wait, Signal;
    match c
    case Spawn(p) => SpawnInstances(k, p, t);
    case WaitOn(p, r) => if r in k.free { WaitInstances(k, p, r, t); } else { LeaveInstances(k, p, t); }
    case SignalOn(p, r) =>
      if r in k.free && k.held[p][r] > 0 { SignalInstances(k, p, r, t); } else { LeaveInstances(k, p, t); }
    case ExitOf(p) => LeaveInstances(k, p, t);
  }

  // ------------------------------------------------------------------------- runs

  /** The state after a run of enabled calls; None as soon as one is not enabled. */
  ghost function Run(k: Kernel, cs: seq<Call>): Option<Kernel> {
    if cs == [] then Some(k)
    else match Run(k, cs[..|cs| - 1])
      case None => None
      case Some(u) => if KInv(u) && Enabled(u, cs[|cs| - 1]) then Some(Step(u, cs[|cs| - 1])) else None
  }

  /** How many signals of the run woke a waiter of r. */
  ghost function Wakes(k: Kernel, cs: seq<Call>, r: Name): nat {
    if cs == [] then 0
    else
      Wakes(k, cs[..|cs| - 1], r)
      + match Run(k, cs[..|cs| - 1])
        case None => 0
        case Some(u) => if KInv(u) && Enabled(u, cs[|cs| - 1]) then Woke(u, cs[|cs| - 1], r) else 0
  }

  /** Exact accounting over any run: free plus held instances are the initial ones plus
      one for every signal that woke a waiter. */
  lemma {:induction false} Accounting(k: Kernel, cs: seq<Call>, r: Name)
    requires KInv(k) && r in k.names && Run(k, cs).Some?
    ensures var n := Run(k, cs).value;
            KInv(n) && n.names == k.names && Instances(n, r) == Instances(k, r) + Wakes(k, cs, r)
  {
    hide KInv, Enabled, Step, Instances, Woke;
    if cs != [] {
      Accounting(k, cs[..|cs| - 1], r);
      StepInstances(Run(k, cs[..|cs| - 1]).value, cs[|cs| - 1], r);
    }
  }

  /** The total is conserved exactly over the runs in which no signal woke a waiter. */
  lemma ConservedIff(k: Kernel, cs: seq<Call>, r: Name)
    requires KInv(k) && r in k.names && Run(k, cs).Some?
    ensures var n := Run(k, cs).value;
            KInv(n) && r in n.names && (Instances(n, r) == Instances(k, r) <==> Wakes(k, cs, r) == 0)
  {
    hide KInv, Instances, Wakes, Run;
    Accounting(k, cs, r);
  }

  /** One known instance, at most one holder. */
  lemma AtMostOne(n: Kernel, r: Name, p: nat, q: nat)
    requires KInv(n) && r in n.names && Instances(n, r) <= 1
    requires p in n.held && q in n.held && p != q && r in n.held[p] && r in n.held[q] && n.held[p][r] > 0
    ensures n.held[q][r] == 0
  {
    hide KInv, Total, Covers;
    Covered(n, r);
    TotalMinus(n.held, r, p);
    OthersCovered(n.held, r, p);
    TotalMinus(n.held - {p}, r, q);
  }

  /** In such runs a resource with a single instance has at most one holder. */
  lemma SingleHolder(k: Kernel, cs: seq<Call>, r: Name, p: nat, q: nat)
    requires KInv(k) && r in k.names && Run(k, cs).Some? && Instances(k, r) == 1 && Wakes(k, cs, r) == 0
    requires var n := Run(k, cs).value;
             p in n.held && q in n.held && p != q && r in n.held[p] && r in n.held[q] && n.held[p][r] > 0
    ensures Run(k, cs).value.held[q][r] == 0
  {
    hide KInv, Wakes, Run, Instances;
    Accounting(k, cs, r);
    AtMostOne(Run(k, cs).value, r, p, q);
  }

  /** A kernel whose ksignal takes the instance it hands over back from the counter, as
      liberar_recursos does; every other call is the same. */
  function RepairedStep(k: Kernel, c: Call): Kernel
    requires KInv(k) && Enabled(k, c)
  {
    if c.SignalOn? && c.name in k.free && k.held[c.pid][c.name] > 0 && k.queue[c.name] != [] then
      HeadWaits(k, c.name);
      WakeAndTake(GiveBack(k, c.pid, c.name), c.name)
    else Step(k, c)
  }

  ghost function RepairedRun(k: Kernel, cs: seq<Call>): Option<Kernel> {
    if cs == [] then Some(k)
    else match RepairedRun(k, cs[..|cs| - 1])
      case None => None
      case Some(u) => if KInv(u) && Enabled(u, cs[|cs| - 1]) then Some(RepairedStep(u, cs[|cs| - 1])) else None
  }

  lemma RepairedInstances(k: Kernel, c: Call, t: Name)
    requires KInv(k) && Enabled(k, c) && t in k.names
    ensures var n := RepairedStep(k, c); KInv(n) && n.names == k.names && Instances(n, t) == Instances(k, t)
  {
    hide Instances, Step, WakeAndTake, GiveBack, Wake;
    if c.SignalOn? && c.name in k.free && k.held[c.pid][c.name] > 0 && k.queue[c.name] != [] {
      HeadWaits(k, c.name);
      hide KInv, Waits, Enabled;
      HandsOver(k, c.pid, c.name, t);
    } else {
      StepInstances(k, c, t);
    }
  }

  lemma HandsOver(k: Kernel, p: nat, r: Name, t: Name)
    requires KInv(k) && t in k.names && p in k.held && r in k.free && r in k.held[p] && k.held[p][r] > 0
    requires r in k.queue && k.queue[r] != [] && k.queue[r][0] in k.held && r in k.held[k.queue[r][0]]
    ensures var n := WakeAndTake(GiveBack(k, p, r), r);
            KInv(n) && n.names == k.names && Instances(n, t) == Instances(k, t)
  {
    InNames(k, r);
    hide KInv, Instances, WakeAndTake, Wake;
    GiveBackInstances(k, p, r, t);
    var g := GiveBack(k, p, r);
    WakeInstances(g, r, t);
    TakeInstances(g, r, t);
  }

  lemma InNames(k: Kernel, r: Name)
    requires KInv(k) && r in k.free
    ensures r in k.names
  {
  }

  /** With that repair the number of instances is constant over every run, so a resource
      with a single instance never has two holders. */
  lemma {:induction false} RepairedConserved(k: Kernel, cs: seq<Call>, r: Name)
    requires KInv(k) && r in k.names && RepairedRun(k, cs).Some?
    ensures var n := RepairedRun(k, cs).value;
            && KInv(n) && n.names == k.names && Instances(n, r) == Instances(k, r)
            && (Instances(k, r) == 1 ==> forall p, q ::
                  p in n.held && q in n.held && p != q && r in n.held[p] && r in n.held[q] && n.held[p][r] > 0 ==>
                    n.held[q][r] == 0)
  {
    hide KInv, Enabled, RepairedStep, Instances;
    if cs != [] {
      RepairedConserved(k, cs[..|cs| - 1], r);
      RepairedInstances(RepairedRun(k, cs[..|cs| - 1]).value, cs[|cs| - 1], r);
    }
    var n := RepairedRun(k, cs).value;
    if Instances(k, r) == 1 {
      forall p, q | p in n.held && q in n.held && p != q && r in n.held[p] && r in n.held[q] && n.held[p][r] > 0
        ensures n.held[q][r] == 0
      {
        AtMostOne(n, r, p, q);
      }
    }
  }

  lemma OthersCovered(held: map<nat, map<Name, nat>>, r: Name, p: nat)
    requires Covers(held, r)
    ensures Covers(held - {p}, r)
  {
  }
}
