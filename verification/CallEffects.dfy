/** What each call leaves of the processes and of what they hold, and that a process that has
    left makes no more calls. */
module CallEffects {
  import opened Words
  import opened Resources
  import opened ResourceRuns
  import opened ServiceOrder
  import opened Stranding

  // ------------------------------------------------------------------ what one can see

  function Amount(k: Kernel, p: nat, r: Name): nat {
    if p in k.held && r in k.held[p] then k.held[p][r] else 0
  }

  function Counter(k: Kernel, r: Name): nat {
    if r in k.free then k.free[r] else 0
  }

  /** The process that has waited longest. */
  function Head(k: Kernel, r: Name): Option<nat> {
    if r in k.queue && k.queue[r] != [] then Some(k.queue[r][0]) else None
  }

  /** The call ends its process: EXIT, a resource that does not exist, a SIGNAL without holding. */
  predicate Ends(k: Kernel, c: Call) {
    match c
    case Spawn(_) => false
    case WaitOn(_, r) => r !in k.names
    case SignalOn(p, r) => r !in k.names || Amount(k, p, r) == 0
    case ExitOf(_) => true
  }

  // --------------------------------------------------------------- who exists afterwards

  lemma ReleaseKeepsPids(k: Kernel, p: nat)
    requires KInv(k) && Idle(k, p)
    ensures Leave(k, p).held.Keys == k.held.Keys - {p}
  {
    hide KInv, Idle, ReleaseFrom;
  }

  lemma WaitPids(k: Kernel, p: nat, r: Name)
    requires r in k.free && r in k.queue && p in k.held && r in k.held[p]
    ensures Wait(k, p, r).held.Keys == k.held.Keys
  {
  }

  lemma SignalPids(k: Kernel, p: nat, r: Name)
    requires KInv(k) && r in k.free && p in k.held && r in k.held[p] && k.held[p][r] > 0
    ensures Signal(k, p, r).held.Keys == k.held.Keys
  {
    KeysOf(k, p, r);
    if k.queue[r] != [] {
      HeadWaits(k, r);
    }
    hide KInv, RemoveFirst;
  }

  /** A new process is there, one that ends is forgotten, and nobody else comes or goes. */
  lemma WhoRemains(k: Kernel, c: Call)
    requires KInv(k) && Enabled(k, c)
    ensures c.Spawn? ==> Step(k, c).held.Keys == k.held.Keys + {c.pid}
    ensures Ends(k, c) ==> Step(k, c).held.Keys == k.held.Keys - {c.pid}
    ensures !c.Spawn? && !Ends(k, c) ==> Step(k, c).held.Keys == k.held.Keys
  {
    hide Waits, Leave, RemoveFirst, Wait, Signal, Total, Distinct;
    match c
    case Spawn(p) =>
    case WaitOn(p, r) => if r in k.free { WaitPids(k, p, r); } else { ReleaseKeepsPids(k, p); }
    case SignalOn(p, r) =>
      if r in k.free && k.held[p][r] > 0 { SignalPids(k, p, r); } else { ReleaseKeepsPids(k, p); }
    case ExitOf(p) => ReleaseKeepsPids(k, p);
  }

  // ------------------------------------------------------------------ who holds what

  /** How many instances of t the call gives to q, or takes from it. */
  ghost function Change(k: Kernel, c: Call, q: nat, t: Name): int {
    if c == WaitOn(q, t) then (if Counter(k, t) > 0 then 1 else 0)
    else if c == SignalOn(q, t) then -1
    else if Head(k, t) != Some(q) || c.Spawn? || Amount(k, c.pid, t) == 0 then 0
    else if c == SignalOn(c.pid, t) || Ends(k, c) then 1
    else 0
  }

  /** The keys a call finds. */
  lemma CallKeys(k: Kernel, c: Call, t: Name)
    requires KInv(k) && Enabled(k, c) && t in k.names
    ensures t in k.queue && t in k.free && forall q :: q in k.held ==> t in k.held[q]
    ensures forall r :: r in k.names <==> r in k.free
    ensures forall r :: r in k.names <==> r in k.queue
    ensures !c.Spawn? ==>
              c.pid in k.held && (c.WaitOn? || c.SignalOn? ==> (c.name in k.names <==> c.name in k.held[c.pid]))
    ensures k.queue[t] != [] ==> k.queue[t][0] in k.held && (!c.Spawn? ==> k.queue[t][0] != c.pid)
  {
    if k.queue[t] != [] {
      assert Waits(k, k.queue[t][0], t);
    }
  }

  lemma WaitOwn(k: Kernel, p: nat, r: Name, t: Name)
    requires r in k.free && r in k.queue && p in k.held && r in k.held[p] && t in k.held[p]
    ensures p in Wait(k, p, r).held && t in Wait(k, p, r).held[p]
    ensures Wait(k, p, r).held[p][t] == k.held[p][t] + if t == r && k.free[r] > 0 then 1 else 0
  {
  }

  lemma SignalOwn(k: Kernel, p: nat, r: Name, t: Name)
    requires KInv(k) && Idle(k, p) && r in k.free && r in k.names && t in k.names && p in k.held && r in k.held[p] && k.held[p][r] > 0
    ensures p in Signal(k, p, r).held && t in k.held[p] && t in Signal(k, p, r).held[p]
    ensures Signal(k, p, r).held[p][t] == k.held[p][t] - if t == r then 1 else 0
  {
    KeysOf(k, p, r);
    KeysOf(k, p, t);
    assert k.queue[r] != [] ==> Waits(k, k.queue[r][0], r);
    assert !Waits(k, p, r);
    hide KInv, RemoveFirst, Idle, Waits;
  }

  /** q holds afterwards what it held, and what the call changed. */
  ghost predicate HoldsRight(k: Kernel, c: Call, n: Kernel, q: nat, t: Name) {
    && q in n.held && t in n.held[q]
    && if c == Call.Spawn(q) then n.held[q][t] == 0
       else q in k.held && n.held[q][t] == Amount(k, q, t) + Change(k, c, q, t)
  }

  lemma HoldsLeft(k: Kernel, c: Call, q: nat, t: Name)
    requires KInv(k) && Enabled(k, c) && t in k.names && Ends(k, c) && q in k.held && q != c.pid && Idle(k, c.pid)
    ensures HoldsRight(k, c, Leave(k, c.pid), q, t)
  {
    hide KInv, Idle, Leave;
    CallKeys(k, c, t);
    LeaveOther(k, c.pid, q, t);
  }

  lemma HoldsWaited(k: Kernel, p: nat, r: Name, q: nat, t: Name)
    requires KInv(k) && Enabled(k, WaitOn(p, r)) && r in k.names && t in k.names && q in k.held
    ensures p in k.held && r in k.free && r in k.queue && r in k.held[p]
    ensures HoldsRight(k, WaitOn(p, r), Wait(k, p, r), q, t)
  {
    hide KInv, Idle, Wait;
    CallKeys(k, WaitOn(p, r), t);
    if q == p {
      WaitOwn(k, p, r, t);
    } else {
      WaitOther(k, p, r, q);
    }
  }

  lemma HoldsSignalled(k: Kernel, p: nat, r: Name, q: nat, t: Name)
    requires KInv(k) && Enabled(k, SignalOn(p, r)) && r in k.names && t in k.names && q in k.held && Amount(k, p, r) > 0
    ensures p in k.held && r in k.free && r in k.held[p] && k.held[p][r] > 0
    ensures HoldsRight(k, SignalOn(p, r), Signal(k, p, r), q, t)
  {
    hide KInv, Idle, Signal;
    CallKeys(k, SignalOn(p, r), t);
    if q == p {
      SignalOwn(k, p, r, t);
    } else {
      SignalOther(k, p, r, q, t);
    }
  }

  /** Everybody holds afterwards what they held, and what the call changed; a new process holds
      nothing. */
  lemma HoldsAfter(k: Kernel, c: Call, q: nat, t: Name)
    requires KInv(k) && Enabled(k, c) && t in k.names && q in Step(k, c).held
    ensures HoldsRight(k, c, Step(k, c), q, t)
  {
    hide KInv, Idle, Leave, Wait, Signal, Change;
    WhoRemains(k, c);
    CallKeys(k, c, t);
    if Ends(k, c) {
      hide HoldsRight;
      HoldsLeft(k, c, q, t);
    } else if c.WaitOn? {
      hide HoldsRight;
      HoldsWaited(k, c.pid, c.name, q, t);
    } else if c.SignalOn? {
      hide HoldsRight;
      HoldsSignalled(k, c.pid, c.name, q, t);
    } else {
      SpawnHolds(k, c.pid, q, t);
    }
  }

  lemma SpawnHolds(k: Kernel, p: nat, q: nat, t: Name)
    requires KInv(k) && p !in k.held && t in k.names && (q in k.held || q == p)
    ensures HoldsRight(k, Call.Spawn(p), k.(held := k.held[p := Nothing(k.names)]), q, t)
  {
    if q != p {
      KeysOf(k, q, t);
    }
    hide KInv;
  }

  /** And the counter of t: taken by WAIT, given back by SIGNAL, and by a leaving process less
      the one its first waiter gets. */
  ghost predicate FreeRight(k: Kernel, c: Call, n: Kernel, t: Name) {
    Counter(n, t) - Counter(k, t)
    == if c.Spawn? then 0
       else if c == WaitOn(c.pid, t) then (if Counter(k, t) > 0 then -1 else 0)
       else if c == SignalOn(c.pid, t) && Amount(k, c.pid, t) > 0 then 1
       else if !Ends(k, c) then 0
       else if Amount(k, c.pid, t) > 0 && Head(k, t).Some? then Amount(k, c.pid, t) - 1
       else Amount(k, c.pid, t)
  }

  lemma FreeLeft(k: Kernel, c: Call, t: Name)
    requires KInv(k) && Enabled(k, c) && t in k.names && Ends(k, c) && Idle(k, c.pid)
    ensures FreeRight(k, c, Leave(k, c.pid), t)
  {
    hide KInv, Idle, Leave;
    CallKeys(k, c, t);
    LeaveFree(k, c.pid, t);
  }

  lemma FreeWaited(k: Kernel, p: nat, r: Name, t: Name)
    requires KInv(k) && Enabled(k, WaitOn(p, r)) && r in k.names && t in k.names
    ensures p in k.held && r in k.free && r in k.queue && r in k.held[p]
    ensures FreeRight(k, WaitOn(p, r), Wait(k, p, r), t)
  {
    hide KInv, Idle, Wait;
    CallKeys(k, WaitOn(p, r), t);
    WaitFree(k, p, r, t);
  }

  lemma FreeSignalled(k: Kernel, p: nat, r: Name, t: Name)
    requires KInv(k) && Enabled(k, SignalOn(p, r)) && r in k.names && t in k.names && Amount(k, p, r) > 0
    ensures p in k.held && r in k.free && r in k.held[p] && k.held[p][r] > 0
    ensures FreeRight(k, SignalOn(p, r), Signal(k, p, r), t)
  {
    hide KInv, Idle, Signal;
    CallKeys(k, SignalOn(p, r), t);
    SignalFree(k, p, r, t);
  }

  lemma FreeAfter(k: Kernel, c: Call, t: Name)
    requires KInv(k) && Enabled(k, c) && t in k.names
    ensures FreeRight(k, c, Step(k, c), t)
  {
    hide KInv, Idle, Leave, Wait, Signal;
    CallKeys(k, c, t);
    if !c.Spawn? {
      hide FreeRight;
      if Ends(k, c) {
        FreeLeft(k, c, t);
      } else if c.WaitOn? {
        FreeWaited(k, c.pid, c.name, t);
      } else {
        FreeSignalled(k, c.pid, c.name, t);
      }
    }
  }

  // ------------------------------------------------------------------------ runs

  /** At its i-th call the run ends a process. */
  ghost predicate EndsProcess(k: Kernel, cs: seq<Call>, i: nat)
    requires i < |cs|
  {
    Run(k, cs[..i]).Some?
    && var u := Run(k, cs[..i]).value;
       KInv(u) && Enabled(u, cs[i]) && Ends(u, cs[i])
  }

  /** A process that has ended makes no call until a process with its pid is started. */
  lemma GoneMakesNoCall(k: Kernel, cs: seq<Call>, i: nat, j: nat)
    requires KInv(k) && Run(k, cs).Some? && i < j < |cs| && EndsProcess(k, cs, i)
    requires forall l :: i < l <= j ==> cs[l] != Call.Spawn(cs[i].pid)
    ensures cs[j].pid != cs[i].pid
  {
    hide KInv, Step, Run, Ends;
    StillGone(k, cs, i, j, cs[i].pid);
    PrefixRuns(k, cs, j);
  }

  lemma PrefixRuns(k: Kernel, cs: seq<Call>, j: nat)
    requires Run(k, cs).Some? && j < |cs|
    ensures Run(k, cs[..j]).Some?
    ensures var u := Run(k, cs[..j]).value; KInv(u) && Enabled(u, cs[j]) && Run(k, cs[..j + 1]) == Some(Step(u, cs[j]))
    decreases |cs|
  {
    hide KInv, Enabled, Step;
    if j == |cs| - 1 {
      assert cs[..j + 1] == cs;
    } else {
      var before := cs[..|cs| - 1];
      PrefixRuns(k, before, j);
      assert before[..j] == cs[..j] && before[..j + 1] == cs[..j + 1];
    }
  }

  lemma {:induction false} StillGone(k: Kernel, cs: seq<Call>, i: nat, j: nat, p: nat)
    requires KInv(k) && Run(k, cs).Some? && i < j < |cs| && EndsProcess(k, cs, i) && p == cs[i].pid
    requires forall l :: i < l < j ==> cs[l] != Call.Spawn(p)
    ensures Run(k, cs[..j]).Some? && p !in Run(k, cs[..j]).value.held
    decreases j
  {
    hide KInv, Idle, Step, Run, Enabled;
    PrefixRuns(k, cs, j - 1);
    var u := Run(k, cs[..j - 1]).value;
    WhoRemains(u, cs[j - 1]);
    if i < j - 1 {
      StillGone(k, cs, i, j - 1, p);
    } else {
      KnownNames(u);
    }
  }

  lemma KnownNames(k: Kernel)
    requires KInv(k)
    ensures forall r :: r in k.names <==> r in k.free
  {
  }
}
