/** When a process is left waiting for a resource of which an instance is free. */
module Stranding {
  import opened Words
  import opened Resources
  import opened ResourceRuns
  import opened ServiceOrder
  import opened Exclusion

  /** Nobody waits for r while an instance of it is free. */
  predicate NoneStranded(k: Kernel, r: Name) {
    r in k.queue && r in k.free && (k.queue[r] != [] ==> k.free[r] == 0)
  }

  /** The caller gives r back in a way that frees an instance with a second process in the
      queue: a SIGNAL, which wakes one waiter and keeps the instance on the counter, or its end
      while it holds two instances or more, which wakes one waiter for all of them. */
  ghost predicate Strands(k: Kernel, c: Call, r: Name)
    requires KInv(k) && Enabled(k, c) && r in k.names
  {
    && |k.queue[r]| >= 2
    && ((c == SignalOn(c.pid, r) && k.held[c.pid][r] > 0) || (Leaves(k, c) && k.held[c.pid][r] >= 2))
  }

  // ------------------------------------------------------------ the counter of a resource

  /** What a leaving process adds to the counter of t. */
  function Freed(k: Kernel, p: nat, t: Name): int
    requires p in k.held && t in k.held[p] && t in k.queue
  {
    if k.held[p][t] >= 1 && k.queue[t] != [] then k.held[p][t] - 1 else k.held[p][t]
  }

  lemma ReleasedFree(k: Kernel, p: nat, r: Name, t: Name)
    requires KInv(k) && Idle(k, p) && r in k.names && t in k.names
    ensures t in k.free && t in k.queue && t in k.held[p] && t in ReleaseOne(k, p, r).free
    ensures ReleaseOne(k, p, r).free[t] == k.free[t] + if t == r then Freed(k, p, t) else 0
  {
    KeysOf(k, p, r);
    KeysOf(k, p, t);
    RebuildOfIdle(k, p, r);
    hide KInv, Without, Idle, Waits;
  }

  lemma {:induction false} ReleaseFromFree(k: Kernel, p: nat, i: nat, t: Name)
    requires KInv(k) && Idle(k, p) && t in k.names
    ensures t in k.free && t in k.queue && p in k.held && t in k.held[p] && t in ReleaseFrom(k, p, i).free
    ensures ReleaseFrom(k, p, i).free[t] == k.free[t] + if Ahead(k.names, i, t) then Freed(k, p, t) else 0
    decreases |k.names| - i
  {
    hide KInv, Idle, ReleaseOne;
    IdleCovered(k, p, t);
    KeysOf(k, p, t);
    if i < |k.names| {
      var r := k.names[i];
      ReleaseOneKeeps(k, p, r);
      ReleasedHeld(k, p, r, t);
      ReleasedQueue(k, p, r, t);
      ReleasedFree(k, p, r, t);
      NamesDistinct(k);
      ReleaseFromFree(ReleaseOne(k, p, r), p, i + 1, t);
    }
  }

  lemma LeaveFree(k: Kernel, p: nat, t: Name)
    requires KInv(k) && Idle(k, p) && t in k.names
    ensures t in k.free && t in k.queue && p in k.held && t in k.held[p] && t in Leave(k, p).free
    ensures Leave(k, p).free[t] == k.free[t] + Freed(k, p, t)
  {
    hide KInv, Idle, ReleaseFrom;
    ReleaseFromFree(k, p, 0, t);
    assert Ahead(k.names, 0, t);
  }

  lemma WaitFree(k: Kernel, p: nat, r: Name, t: Name)
    requires r in k.free && r in k.queue && t in k.free && p in k.held && r in k.held[p]
    ensures t in Wait(k, p, r).free
    ensures Wait(k, p, r).free[t] == k.free[t] - if t == r && k.free[r] > 0 then 1 else 0
  {
  }

  lemma SignalFree(k: Kernel, p: nat, r: Name, t: Name)
    requires KInv(k) && r in k.free && p in k.held && r in k.held[p] && k.held[p][r] > 0 && r in k.queue && t in k.free
    ensures t in Signal(k, p, r).free
    ensures Signal(k, p, r).free[t] == k.free[t] + if t == r then 1 else 0
  {
    hide KInv, RemoveFirst;
  }

  // ------------------------------------------------------------------------ one call

  /** Where no waiter is stranded, a call strands one exactly when it gives an instance back
      past a second waiter. */
  lemma StepStrands(k: Kernel, c: Call, r: Name)
    requires KInv(k) && Enabled(k, c) && r in k.names && NoneStranded(k, r)
    ensures NoneStranded(Step(k, c), r) <==> !Strands(k, c, r)
  {
    hide Waits, Leave, RemoveFirst, Wait, Signal, Total, Distinct;
    assert r in k.queue && r in k.free;
    match c
    case Spawn(p) =>
    case WaitOn(p, t) =>
      if t in k.free { WaitQueue(k, p, t, r); WaitFree(k, p, t, r); } else { LeaveQueue(k, p, r); LeaveFree(k, p, r); }
    case SignalOn(p, t) =>
      if t in k.free && k.held[p][t] > 0 {
        SignalQueue(k, p, t, r);
        SignalFree(k, p, t, r);
      } else {
        LeaveQueue(k, p, r);
        LeaveFree(k, p, r);
      }
    case ExitOf(p) => LeaveQueue(k, p, r); LeaveFree(k, p, r);
  }

  // ------------------------------------------------------------------------ runs

  /** Some call of the run gave an instance of r back past a second waiter. */
  ghost predicate EverStrands(k: Kernel, cs: seq<Call>, r: Name) {
    exists i :: 0 <= i < |cs| && StrandsAt(k, cs, r, i)
  }

  ghost predicate StrandsAt(k: Kernel, cs: seq<Call>, r: Name, i: nat)
    requires i < |cs|
  {
    Run(k, cs[..i]).Some?
    && var u := Run(k, cs[..i]).value;
       KInv(u) && Enabled(u, cs[i]) && r in u.names && Strands(u, cs[i], r)
  }

  ghost predicate NeverStranded(k: Kernel, cs: seq<Call>, r: Name) {
    forall i :: 0 <= i <= |cs| ==> StrandedNot(k, cs, r, i)
  }

  ghost predicate StrandedNot(k: Kernel, cs: seq<Call>, r: Name, i: nat)
    requires i <= |cs|
  {
    Run(k, cs[..i]).Some? && NoneStranded(Run(k, cs[..i]).value, r)
  }

  /** Over whole runs: at every point nobody waits for r while an instance is free, if and only
      if no call of the run gave one back past a second waiter. */
  lemma {:induction false} NeverStrandedIff(k: Kernel, cs: seq<Call>, r: Name)
    requires KInv(k) && r in k.names && NoneStranded(k, r) && Run(k, cs).Some?
    ensures NeverStranded(k, cs, r) <==> !EverStrands(k, cs, r)
  {
    hide KInv, Enabled, Step, Strands, NoneStranded, Run;
    RunNone(k);
    if cs == [] {
      assert cs[..0] == [];
    } else {
      var before, c := cs[..|cs| - 1], cs[|cs| - 1];
      RunSplit(k, cs);
      var u := Run(k, before).value;
      Accounting(k, before, r);
      NeverStrandedIff(k, before, r);
      assert cs[..|cs|] == cs;
      forall i | 0 <= i <= |before| ensures before[..i] == cs[..i] {}
      assert NeverStranded(k, cs, r) <==> NeverStranded(k, before, r) && StrandedNot(k, cs, r, |cs|) by {
        forall i | 0 <= i <= |before| ensures StrandedNot(k, cs, r, i) <==> StrandedNot(k, before, r, i) {}
      }
      assert EverStrands(k, cs, r) <==> EverStrands(k, before, r) || StrandsAt(k, cs, r, |before|) by {
        forall i | 0 <= i < |before| ensures StrandsAt(k, cs, r, i) <==> StrandsAt(k, before, r, i) {}
      }
      if NeverStranded(k, before, r) {
        assert StrandedNot(k, before, r, |before|) && before[..|before|] == before;
        StepStrands(u, c, r);
      }
    }
  }

  lemma RunSplit(k: Kernel, cs: seq<Call>)
    requires cs != [] && Run(k, cs).Some?
    ensures var (before, c) := (cs[..|cs| - 1], cs[|cs| - 1]);
            && Run(k, before).Some?
            && var u := Run(k, before).value;
               KInv(u) && Enabled(u, c) && Run(k, cs) == Some(Step(u, c))
  {
    hide KInv, Enabled, Step;
  }

  // ---------------------------------------------------------------------- an example

  /** Process 1 takes the only instance, 2 and 3 wait, and 1 signals. */
  const PASSED_OVER: seq<Call> :=
    [Spawn(1), Spawn(2), Spawn(3), WaitOn(1, DISK), WaitOn(2, DISK), WaitOn(3, DISK), SignalOn(1, DISK)]

  lemma QueuedBehind(held: map<nat, nat>, p: nat, q: nat)
    requires p in held && p != q && KInv(State(0, [q], held))
    ensures Enabled(State(0, [q], held), WaitOn(p, DISK))
    ensures Step(State(0, [q], held), WaitOn(p, DISK)) == State(0, [q, p], held)
  {
    hide KInv;
    StateIdle(0, [q], held, p);
    assert [q] + [p] == [q, p];
    Rebind([q], [q, p]);
  }

  lemma GaveTwo(held: map<nat, nat>, p: nat, q: nat, t: nat)
    requires p in held && held[p] > 0
    ensures GiveBack(State(0, [q, t], held), p, DISK) == State(1, [q, t], held[p := held[p] - 1])
  {
    Rebind(0, 1);
    Rebind(held[p], held[p] - 1);
    StateHeld(0, [q, t], held, p, held[p] - 1);
  }

  lemma WokenFirst(held: map<nat, nat>, q: nat, t: nat)
    requires q in held && q != t
    ensures Wake(State(1, [q, t], held), DISK) == State(1, [t], held[q := held[q] + 1])
  {
    assert [q, t][1..] == [t] && RemoveFirst([q, t], q) == [t];
    Rebind([q, t], [t]);
    Rebind(held[q], held[q] + 1);
    StateHeld(1, [t], held, q, held[q] + 1);
  }

  lemma PassedOver(held: map<nat, nat>, p: nat, q: nat, t: nat)
    requires p in held && q in held && p !in {q, t} && q != t && held[p] > 0 && KInv(State(0, [q, t], held))
    ensures Enabled(State(0, [q, t], held), SignalOn(p, DISK))
    ensures Step(State(0, [q, t], held), SignalOn(p, DISK)) == State(1, [t], held[p := held[p] - 1][q := held[q] + 1])
  {
    hide KInv, GiveBack, Wake;
    StateIdle(0, [q, t], held, p);
    GaveTwo(held, p, q, t);
    WokenFirst(held[p := held[p] - 1], q, t);
  }

  lemma BeforeAndAfter()
    ensures NoneStranded(OneDisk(), DISK)
    ensures !NoneStranded(State(1, [3], map[1 := 0, 2 := 1, 3 := 0]), DISK)
  {
  }

  /** A run after which process 3 waits although an instance is free. */
  lemma FreeWhileWaiting()
    ensures KInv(OneDisk()) && NoneStranded(OneDisk(), DISK)
    ensures Run(OneDisk(), PASSED_OVER) == Some(State(1, [3], map[1 := 0, 2 := 1, 3 := 0]))
    ensures !NoneStranded(State(1, [3], map[1 := 0, 2 := 1, 3 := 0]), DISK)
  {
    hide KInv, Enabled, Step, Run, State, NoneStranded;
    var k, c := OneDisk(), PASSED_OVER;
    BeforeAndAfter();
    OneDiskInv();
    ThreeSpawned();
    var none, one := map[1 := 0, 2 := 0, 3 := 0], map[1 := 1, 2 := 0, 3 := 0];
    assert none[1 := 1] == one && one[1 := 0][2 := 1] == map[1 := 0, 2 := 1, 3 := 0];
    assert c[..3] == DOUBLE_GRANT[..3];
    assert c[..3] + [c[3]] == c[..4] && c[..4] + [c[4]] == c[..5] && c[..5] + [c[5]] == c[..6] && c[..6] + [c[6]] == c;
    Took(1, none, 1);
    RunOne(k, c[..3], State(1, [], none), c[3]);
    QueuedUp(one, 2);
    RunOne(k, c[..4], State(0, [], one), c[4]);
    QueuedBehind(one, 3, 2);
    RunOne(k, c[..5], State(0, [2], one), c[5]);
    PassedOver(one, 1, 2, 3);
    RunOne(k, c[..6], State(0, [2, 3], one), c[6]);
  }
}
