/** The order in which the waiters of a resource get an instance. */
module ServiceOrder {
  import opened Words
  import opened Resources
  import opened ResourceRuns

  // --------------------------------------------------------- who blocks, who is served

  /** q waits for r after the call and did not before. */
  ghost predicate Blocks(k: Kernel, c: Call, r: Name, q: nat)
    requires KInv(k) && Enabled(k, c)
  {
    !Waits(k, q, r) && Waits(Step(k, c), q, r)
  }

  /** q, waiting for r, has more of it after the call. */
  ghost predicate Gains(k: Kernel, c: Call, r: Name, q: nat)
    requires KInv(k) && Enabled(k, c)
  {
    var n := Step(k, c);
    && Waits(k, q, r) && q in k.held && r in k.held[q] && q in n.held && r in n.held[q]
    && n.held[q][r] > k.held[q][r]
  }

  ghost function BlockedBy(k: Kernel, c: Call, r: Name): seq<nat>
    requires KInv(k) && Enabled(k, c)
  {
    if exists q :: Blocks(k, c, r, q) then var q :| Blocks(k, c, r, q); [q] else []
  }

  ghost function ServedBy(k: Kernel, c: Call, r: Name): seq<nat>
    requires KInv(k) && Enabled(k, c)
  {
    if exists q :: Gains(k, c, r, q) then var q :| Gains(k, c, r, q); [q] else []
  }

  predicate Leaves(k: Kernel, c: Call)
    requires c.SignalOn? ==> c.pid in k.held && (c.name in k.free ==> c.name in k.held[c.pid])
  {
    match c
    case Spawn(_) => false
    case WaitOn(_, t) => t !in k.free
    case SignalOn(p, t) => t !in k.free || k.held[p][t] == 0
    case ExitOf(_) => true
  }

  /** What the branches of a call do to the queue of r: who goes to its back ... */
  ghost function Pushed(k: Kernel, c: Call, r: Name): seq<nat>
    requires KInv(k) && Enabled(k, c)
  {
    if c.WaitOn? && c.name == r && r in k.free && k.free[r] == 0 then [c.pid] else []
  }

  /** ... and whether its head goes: when a signal wakes it or a leaving holder frees one. */
  ghost function Popped(k: Kernel, c: Call, r: Name): seq<nat>
    requires KInv(k) && Enabled(k, c) && r in k.names
  {
    if k.queue[r] == [] then []
    else if Woke(k, c, r) == 1 then [k.queue[r][0]]
    else if Leaves(k, c) && k.held[c.pid][r] >= 1 then [k.queue[r][0]]
    else []
  }

  lemma ReleasedQueue(k: Kernel, p: nat, r: Name, t: Name)
    requires KInv(k) && Idle(k, p) && r in k.names && t in k.names
    ensures t in k.queue && t in ReleaseOne(k, p, r).queue && r in k.held[p]
    ensures ReleaseOne(k, p, r).queue[t]
         == if t == r && k.held[p][r] >= 1 && k.queue[r] != [] then k.queue[r][1..] else k.queue[t]
  {
    KeysOf(k, p, r);
    KeysOf(k, p, t);
    RebuildOfIdle(k, p, r);
    hide KInv, Without, Idle, Waits;
  }

  /** The queue of t after its release in ReleaseFrom. */
  function Served(k: Kernel, p: nat, t: Name): seq<nat>
    requires p in k.held && t in k.held[p] && t in k.queue
  {
    if k.held[p][t] >= 1 && k.queue[t] != [] then k.queue[t][1..] else k.queue[t]
  }

  lemma {:induction false} ReleaseFromQueue(k: Kernel, p: nat, i: nat, t: Name)
    requires KInv(k) && Idle(k, p) && t in k.names
    ensures t in k.queue && t in k.held[p] && p in k.held && t in ReleaseFrom(k, p, i).queue
    ensures ReleaseFrom(k, p, i).queue[t] == if Ahead(k.names, i, t) then Served(k, p, t) else k.queue[t]
    decreases |k.names| - i
  {
    hide KInv, Idle, ReleaseOne;
    IdleCovered(k, p, t);
    KeysOf(k, p, t);
    if i < |k.names| {
      var r := k.names[i];
      ReleaseOneKeeps(k, p, r);
      ReleasedHeld(k, p, r, t);
      ReleasedQueue(k, p, r, t);
      NamesDistinct(k);
      ReleaseFromQueue(ReleaseOne(k, p, r), p, i + 1, t);
    }
  }

  lemma NamesDistinct(k: Kernel)
    requires KInv(k)
    ensures Distinct(k.names)
  {
  }

  predicate Ahead(names: seq<Name>, i: nat, t: Name) {
    exists j :: i <= j < |names| && names[j] == t
  }

  lemma LeaveQueue(k: Kernel, p: nat, t: Name)
    requires KInv(k) && Idle(k, p) && t in k.names
    ensures t in k.queue && p in k.held && t in k.held[p] && t in Leave(k, p).queue
    ensures Leave(k, p).queue[t] == Served(k, p, t)
  {
    hide KInv, Idle, ReleaseFrom;
    ReleaseFromQueue(k, p, 0, t);
    assert Ahead(k.names, 0, t);
  }

  lemma WaitQueue(k: Kernel, p: nat, r: Name, t: Name)
    requires r in k.free && r in k.queue && t in k.queue && p in k.held && r in k.held[p]
    ensures t in Wait(k, p, r).queue
    ensures Wait(k, p, r).queue[t] == k.queue[t] + if t == r && k.free[r] == 0 then [p] else []
  {
  }

  lemma SignalQueue(k: Kernel, p: nat, r: Name, t: Name)
    requires KInv(k) && r in k.free && p in k.held && r in k.held[p] && k.held[p][r] > 0 && r in k.queue && t in k.queue
    ensures t in Signal(k, p, r).queue
    ensures Signal(k, p, r).queue[t] == if t == r && k.queue[r] != [] then k.queue[r][1..] else k.queue[t]
  {
    hide KInv, RemoveFirst;
  }

  /** One call appends to the back of a queue and takes from its front, nothing else. */
  lemma StepOrder(k: Kernel, c: Call, t: Name)
    requires KInv(k) && Enabled(k, c) && t in k.names
    ensures t in k.queue && t in Step(k, c).queue
    ensures k.queue[t] + Pushed(k, c, t) == Popped(k, c, t) + Step(k, c).queue[t]
  {
    hide Waits, Leave, RemoveFirst, Wait, Signal, Total, Distinct;
    assert t in k.queue && t in k.free;
    HeadAndRest(k.queue[t]);
    match c
    case Spawn(p) =>
    case WaitOn(p, r) => if r in k.free { WaitQueue(k, p, r, t); } else { LeaveQueue(k, p, t); }
    case SignalOn(p, r) =>
      if r in k.free && k.held[p][r] > 0 { SignalQueue(k, p, r, t); } else { LeaveQueue(k, p, t); }
    case ExitOf(p) => LeaveQueue(k, p, t);
  }

  lemma HeadAndRest(list: seq<nat>)
    ensures list != [] ==> [list[0]] + list[1..] == list
  {
  }

  // --------------------------------------------- the branches and what they mean

  /** Releasing one resource gives its head waiter one more, and nobody else anything. */
  lemma ReleasedOther(k: Kernel, p: nat, r: Name, q: nat, t: Name)
    requires KInv(k) && Idle(k, p) && r in k.names && t in k.names && q in k.held && q != p
    ensures r in k.queue && r in k.held[p] && t in k.held[q] && q in ReleaseOne(k, p, r).held
    ensures t in ReleaseOne(k, p, r).held[q]
    ensures ReleaseOne(k, p, r).held[q][t]
         == k.held[q][t] + if t == r && k.held[p][r] >= 1 && k.queue[r] != [] && k.queue[r][0] == q then 1 else 0
  {
    KeysOf(k, p, r);
    KeysOf(k, q, t);
    RebuildOfIdle(k, p, r);
    hide KInv, Without, Idle, Waits, RemoveFirst, Distinct;
  }

  /** What q, a waiter for t, has gained when p has released everything from i on. */
  ghost function Gained(k: Kernel, p: nat, i: nat, q: nat, t: Name): nat
    requires p in k.held && t in k.held[p] && t in k.queue
  {
    if Ahead(k.names, i, t) && k.held[p][t] >= 1 && k.queue[t] != [] && k.queue[t][0] == q then 1 else 0
  }

  lemma {:induction false} ReleaseFromOther(k: Kernel, p: nat, i: nat, q: nat, t: Name)
    requires KInv(k) && Idle(k, p) && t in k.names && q in k.held && q != p
    ensures p in k.held && t in k.held[p] && t in k.queue && t in k.held[q] && q in ReleaseFrom(k, p, i).held
    ensures t in ReleaseFrom(k, p, i).held[q]
    ensures ReleaseFrom(k, p, i).held[q][t] == k.held[q][t] + Gained(k, p, i, q, t)
    decreases |k.names| - i
  {
    hide KInv, Idle, ReleaseOne;
    IdleCovered(k, p, t);
    KeysOf(k, p, t);
    KeysOf(k, q, t);
    if i < |k.names| {
      var r := k.names[i];
      ReleaseOneKeeps(k, p, r);
      ReleasedHeld(k, p, r, t);
      ReleasedQueue(k, p, r, t);
      ReleasedOther(k, p, r, q, t);
      NamesDistinct(k);
      ReleaseFromOther(ReleaseOne(k, p, r), p, i + 1, q, t);
    }
  }

  lemma LeaveOther(k: Kernel, p: nat, q: nat, t: Name)
    requires KInv(k) && Idle(k, p) && t in k.names && q in k.held && q != p
    ensures p in k.held && t in k.held[p] && t in k.queue && t in k.held[q] && q in Leave(k, p).held
    ensures t in Leave(k, p).held[q]
    ensures Leave(k, p).held[q][t]
         == k.held[q][t] + if k.held[p][t] >= 1 && k.queue[t] != [] && k.queue[t][0] == q then 1 else 0
  {
    hide KInv, Idle, ReleaseFrom;
    ReleaseFromOther(k, p, 0, q, t);
    assert Ahead(k.names, 0, t);
  }

  lemma WaitOther(k: Kernel, p: nat, r: Name, q: nat)
    requires r in k.free && r in k.queue && p in k.held && r in k.held[p] && q != p && q in k.held
    ensures q in Wait(k, p, r).held && Wait(k, p, r).held[q] == k.held[q]
  {
  }

  lemma SignalOther(k: Kernel, p: nat, r: Name, q: nat, t: Name)
    requires KInv(k) && r in k.free && p in k.held && r in k.held[p] && k.held[p][r] > 0
    requires q in k.held && q != p && t in k.names
    ensures r in k.queue && q in Signal(k, p, r).held && t in k.held[q] && t in Signal(k, p, r).held[q]
    ensures Signal(k, p, r).held[q][t]
         == k.held[q][t] + if t == r && k.queue[r] != [] && k.queue[r][0] == q then 1 else 0
  {
    KeysOf(k, q, t);
    hide KInv, RemoveFirst;
  }

  /** A waiter gains an instance in a call exactly when the call pops it off the queue. */
  lemma GainsIsPopped(k: Kernel, c: Call, t: Name, q: nat)
    requires KInv(k) && Enabled(k, c) && t in k.names
    ensures t in k.queue && (Gains(k, c, t, q) <==> q in Popped(k, c, t))
  {
    hide Leave, RemoveFirst, Wait, Signal, Total, Distinct;
    assert t in k.queue && t in k.free;
    if k.queue[t] != [] {
      assert Waits(k, k.queue[t][0], t);
    }
    if Waits(k, q, t) {
      assert q in k.held && q != c.pid;
      match c
      case Spawn(p) =>
      case WaitOn(p, r) => if r in k.free { WaitOther(k, p, r, q); } else { LeaveOther(k, p, q, t); }
      case SignalOn(p, r) =>
        if r in k.free && k.held[p][r] > 0 { SignalOther(k, p, r, q, t); } else { LeaveOther(k, p, q, t); }
      case ExitOf(p) => LeaveOther(k, p, q, t);
    }
  }

  lemma ServedIsPopped(k: Kernel, c: Call, t: Name)
    requires KInv(k) && Enabled(k, c) && t in k.names
    ensures ServedBy(k, c, t) == Popped(k, c, t)
  {
    hide KInv, Enabled, Gains, Woke, Leaves;
    forall q ensures Gains(k, c, t, q) <==> q in Popped(k, c, t) {
      GainsIsPopped(k, c, t, q);
    }
    if Popped(k, c, t) != [] {
      assert Gains(k, c, t, Popped(k, c, t)[0]);
    }
  }

  /** A process starts waiting in a call exactly when the call pushes it on the queue. */
  lemma BlockedIsPushed(k: Kernel, c: Call, t: Name)
    requires KInv(k) && Enabled(k, c) && t in k.names
    ensures BlockedBy(k, c, t) == Pushed(k, c, t)
  {
    StepOrder(k, c, t);
    StepKeeps(k, c);
    var before, after := k.queue[t], Step(k, c).queue[t];
    assert Pushed(k, c, t) != [] ==> Pushed(k, c, t) == [c.pid] && Popped(k, c, t) == [] && !Waits(k, c.pid, t);
    assert t in k.queue && t in Step(k, c).queue;
    hide KInv, Enabled, Step, Pushed, Popped;
    PushedBlocks(before, Popped(k, c, t), after, Pushed(k, c, t));
    forall q ensures Blocks(k, c, t, q) <==> q in Pushed(k, c, t) {
      assert Waits(k, q, t) <==> q in before;
      assert Waits(Step(k, c), q, t) <==> q in after;
    }
    if Pushed(k, c, t) != [] {
      assert Blocks(k, c, t, c.pid);
    }
  }

  lemma PushedBlocks(before: seq<nat>, popped: seq<nat>, after: seq<nat>, pushed: seq<nat>)
    requires before + pushed == popped + after && (pushed != [] ==> |pushed| == 1 && popped == [] && pushed[0] !in before)
    ensures forall q :: q in pushed <==> q !in before && q in after
  {
    if pushed == [] {
      assert before == popped + after;
    } else {
      assert after == before + pushed;
    }
  }

  ghost function BlockedLog(k: Kernel, cs: seq<Call>, r: Name): seq<nat> {
    if cs == [] then []
    else
      BlockedLog(k, cs[..|cs| - 1], r)
      + match Run(k, cs[..|cs| - 1])
        case None => []
        case Some(u) => if KInv(u) && Enabled(u, cs[|cs| - 1]) then BlockedBy(u, cs[|cs| - 1], r) else []
  }

  ghost function ServedLog(k: Kernel, cs: seq<Call>, r: Name): seq<nat> {
    if cs == [] then []
    else
      ServedLog(k, cs[..|cs| - 1], r)
      + match Run(k, cs[..|cs| - 1])
        case None => []
        case Some(u) =>
          if KInv(u) && Enabled(u, cs[|cs| - 1]) then ServedBy(u, cs[|cs| - 1], r) else []
  }

  /** Waiters of a resource are served in the order they blocked: over any run, those who
      started waiting are, in order, those who got an instance while waiting, followed by
      those still waiting. */
  lemma {:induction false} ServedInOrder(k: Kernel, cs: seq<Call>, r: Name)
    requires KInv(k) && r in k.names && r in k.queue && k.queue[r] == [] && Run(k, cs).Some?
    ensures var n := Run(k, cs).value;
            KInv(n) && n.names == k.names && r in n.queue
            && BlockedLog(k, cs, r) == ServedLog(k, cs, r) + n.queue[r]
  {
    hide KInv, Enabled, Step, BlockedBy, ServedBy;
    Accounting(k, cs, r);
    if cs != [] {
      var before, c := cs[..|cs| - 1], cs[|cs| - 1];
      ServedInOrder(k, before, r);
      var u := Run(k, before).value;
      StepOrder(u, c, r);
      ServedIsPopped(u, c, r);
      BlockedIsPushed(u, c, r);
      Regroup(ServedLog(k, before, r), u.queue[r], BlockedBy(u, c, r), ServedBy(u, c, r), Step(u, c).queue[r]);
    }
  }

  lemma Regroup(served: seq<nat>, queue: seq<nat>, blocked: seq<nat>, more: seq<nat>, rest: seq<nat>)
    requires queue + blocked == more + rest
    ensures (served + queue) + blocked == (served + more) + rest
  {
    assert (served + queue) + blocked == served + (queue + blocked);
  }
}
