/** When a resource with one instance can end up with two holders. */
module Exclusion {
  import opened Words
  import opened Resources
  import opened ResourceRuns

  ghost predicate OneHolder(n: Kernel, r: Name) {
    forall p, q :: Holds(n, p, r) && Holds(n, q, r) ==> p == q
  }

  predicate Holds(n: Kernel, p: nat, r: Name) {
    p in n.held && r in n.held[p] && n.held[p][r] > 0
  }

  // ------------------------------------------------------- one wake, two holders

  /** A signal that wakes a waiter, and the signalling process taking the resource again:
      both hold it. */
  lemma WakeThenWait(k: Kernel, p: nat, r: Name)
    requires KInv(k) && Idle(k, p) && r in k.names && Holds(k, p, r) && r in k.queue && k.queue[r] != []
    ensures Enabled(k, SignalOn(p, r)) && KInv(Step(k, SignalOn(p, r)))
    ensures Enabled(Step(k, SignalOn(p, r)), WaitOn(p, r))
    ensures var n := Step(Step(k, SignalOn(p, r)), WaitOn(p, r));
            k.queue[r][0] != p && Holds(n, p, r) && Holds(n, k.queue[r][0], r)
  {
    var q, n := k.queue[r][0], Step(k, SignalOn(p, r));
    KeysOf(k, p, r);
    HeadIsOther(k, p, r);
    StepKeeps(k, SignalOn(p, r));
    WokenBy(k, p, r);
    WaitTakes(n, p, q, r);
    hide KInv, Signal, Wait, Idle, Waits;
  }

  lemma HeadIsOther(k: Kernel, p: nat, r: Name)
    requires KInv(k) && Idle(k, p) && r in k.queue && k.queue[r] != []
    ensures k.queue[r][0] != p && k.queue[r][0] in k.held && r in k.held[k.queue[r][0]]
  {
    assert Waits(k, k.queue[r][0], r) && !Waits(k, p, r);
  }

  lemma WaitTakes(n: Kernel, p: nat, q: nat, r: Name)
    requires r in n.free && r in n.queue && n.free[r] > 0 && p in n.held && r in n.held[p] && p != q && Holds(n, q, r)
    ensures Holds(Wait(n, p, r), p, r) && Holds(Wait(n, p, r), q, r)
  {
  }

  lemma WokenBy(k: Kernel, p: nat, r: Name)
    requires KInv(k) && Idle(k, p) && r in k.names && Holds(k, p, r) && r in k.queue && k.queue[r] != [] && r in k.free
    requires k.queue[r][0] != p && k.queue[r][0] in k.held && r in k.held[k.queue[r][0]]
    ensures var (n, q) := (Signal(k, p, r), k.queue[r][0]);
            && Idle(n, p) && r in n.free && n.free[r] == k.free[r] + 1 && r in n.queue && n.names == k.names
            && p in n.held && r in n.held[p] && Holds(n, q, r)
  {
    hide KInv, RemoveFirst;
    GiveBackWaits(k, p, r);
    WakeKeeps(GiveBack(k, p, r), r);
  }

  lemma GiveBackWaits(k: Kernel, p: nat, r: Name)
    requires KInv(k) && p in k.held && r in k.free && r in k.held[p] && k.held[p][r] > 0
    ensures KInv(GiveBack(k, p, r)) && forall q, t :: Waits(GiveBack(k, p, r), q, t) <==> Waits(k, q, t)
  {
    SameQueues(k, GiveBack(k, p, r));
  }

  // -------------------------------------------------------------- exactly when

  /** Whatever is called after cs, as long as no further signal wakes a waiter of r, at most
      one process holds r. */
  ghost predicate Exclusive(k: Kernel, cs: seq<Call>, r: Name) {
    forall ds :: Run(k, cs + ds).Some? && Wakes(k, cs + ds, r) == Wakes(k, cs, r) ==>
      OneHolder(Run(k, cs + ds).value, r)
  }

  lemma {:induction false} WakesGrow(k: Kernel, cs: seq<Call>, i: nat, r: Name)
    requires i <= |cs| && Run(k, cs).Some?
    ensures Run(k, cs[..i]).Some? && Wakes(k, cs[..i], r) <= Wakes(k, cs, r)
  {
    hide KInv, Enabled, Step, Woke;
    if i == |cs| {
      assert cs[..i] == cs;
    } else {
      WakesGrow(k, cs[..|cs| - 1], i, r);
      assert cs[..|cs| - 1][..i] == cs[..i];
    }
  }

  /** With all instances accounted for there is one holder at most. */
  lemma NoWakesExclusive(k: Kernel, cs: seq<Call>, r: Name)
    requires KInv(k) && r in k.names && Run(k, cs).Some? && Instances(k, r) == 1 && Wakes(k, cs, r) == 0
    ensures Exclusive(k, cs, r)
  {
    hide KInv, Wakes, Run, Instances;
    forall ds | Run(k, cs + ds).Some? && Wakes(k, cs + ds, r) == Wakes(k, cs, r)
      ensures OneHolder(Run(k, cs + ds).value, r)
    {
      Accounting(k, cs + ds, r);
      var n := Run(k, cs + ds).value;
      forall p, q | Holds(n, p, r) && Holds(n, q, r) ensures p == q {
        if p != q {
          AtMostOne(n, r, p, q);
        }
      }
    }
  }

  /** The run just before its first wake. */
  lemma {:induction false} FirstWake(k: Kernel, cs: seq<Call>, r: Name) returns (i: nat)
    requires Run(k, cs).Some? && Wakes(k, cs, r) > 0
    ensures i < |cs| && Run(k, cs[..i]).Some? && Run(k, cs[..i + 1]).Some?
    ensures Wakes(k, cs[..i], r) == 0
    ensures var u := Run(k, cs[..i]).value;
            KInv(u) && Enabled(u, cs[i]) && Woke(u, cs[i], r) == 1 && Run(k, cs[..i + 1]) == Some(Step(u, cs[i]))
  {
    hide KInv, Enabled, Step;
    var before := cs[..|cs| - 1];
    if Wakes(k, before, r) > 0 {
      i := FirstWake(k, before, r);
      assert before[..i] == cs[..i] && before[..i + 1] == cs[..i + 1];
    } else {
      i := |cs| - 1;
      assert cs[..i + 1] == cs;
    }
  }

  /** After a wake, one more call reaches two holders without another wake. */
  lemma WakeBreaks(k: Kernel, cs: seq<Call>, i: nat, r: Name)
    requires KInv(k) && r in k.names && i < |cs| && Run(k, cs[..i]).Some? && Run(k, cs[..i + 1]).Some?
    requires var u := Run(k, cs[..i]).value;
             KInv(u) && Enabled(u, cs[i]) && Woke(u, cs[i], r) == 1 && Run(k, cs[..i + 1]) == Some(Step(u, cs[i]))
    ensures !Exclusive(k, cs[..i + 1], r)
  {
    hide KInv, Run, Wakes, Instances, Idle, Waits, Step;
    Accounting(k, cs[..i], r);
    var u, c := Run(k, cs[..i]).value, cs[i];
    WokeMeans(u, c, r);
    WakeThenWait(u, c.pid, r);
    var done, d := cs[..i + 1], WaitOn(c.pid, r);
    QuietCall(k, done, Step(u, c), d, r);
    var n := Step(Step(u, c), d);
    assert Holds(n, c.pid, r) && Holds(n, u.queue[r][0], r);
    assert !OneHolder(n, r);
  }

  lemma WokeMeans(u: Kernel, c: Call, r: Name)
    requires KInv(u) && Enabled(u, c) && Woke(u, c, r) == 1
    ensures c == SignalOn(c.pid, r) && Idle(u, c.pid) && Holds(u, c.pid, r) && r in u.queue && u.queue[r] != []
  {
  }

  lemma QuietCall(k: Kernel, cs: seq<Call>, u: Kernel, d: Call, r: Name)
    requires Run(k, cs) == Some(u) && KInv(u) && Enabled(u, d) && d.WaitOn?
    ensures Run(k, cs + [d]) == Some(Step(u, d)) && Wakes(k, cs + [d], r) == Wakes(k, cs, r)
  {
    hide KInv, Enabled, Step;
    assert (cs + [d])[..|cs|] == cs;
  }

  /** Mutual exclusion, exactly: from no point of a run can two processes come to hold a
      single-instance resource without a further wake, if and only if no signal of the run
      woke a waiter. */
  lemma ExclusiveIff(k: Kernel, cs: seq<Call>, r: Name)
    requires KInv(k) && r in k.names && Run(k, cs).Some? && Instances(k, r) == 1
    ensures Wakes(k, cs, r) == 0 <==> forall i :: 0 <= i <= |cs| ==> Exclusive(k, cs[..i], r)
  {
    hide KInv, Wakes, Run, Instances, Exclusive;
    if Wakes(k, cs, r) == 0 {
      forall i | 0 <= i <= |cs| ensures Exclusive(k, cs[..i], r) {
        WakesGrow(k, cs, i, r);
        NoWakesExclusive(k, cs[..i], r);
      }
    } else {
      var i := FirstWake(k, cs, r);
      WakeBreaks(k, cs, i, r);
    }
  }

  // ----------------------------------------------------------------- two holders

  const DISK: Name := "DISK"

  /** Process 1 takes the only instance, 2 blocks, 1 signals (2 is woken and holds it, the
      counter still says one is free), 3 takes it too. */
  const DOUBLE_GRANT: seq<Call> :=
    [Spawn(1), Spawn(2), Spawn(3), WaitOn(1, DISK), WaitOn(2, DISK), SignalOn(1, DISK), WaitOn(3, DISK)]

  function OneDisk(): Kernel {
    Kernel([DISK], map[DISK := 1], map[DISK := []], map[], [])
  }

  lemma OneDiskInv()
    ensures KInv(OneDisk()) && OneDisk().names == [DISK] && Instances(OneDisk(), DISK) == 1
  {
    var k := OneDisk();
    assert forall p, r :: !Waits(k, p, r);
  }

  lemma RunOne(k: Kernel, cs: seq<Call>, u: Kernel, c: Call)
    requires Run(k, cs) == Some(u) && KInv(u) && Enabled(u, c)
    ensures Run(k, cs + [c]) == Some(Step(u, c)) && KInv(Step(u, c))
  {
    hide KInv, Enabled, Step;
    assert (cs + [c])[..|cs|] == cs;
    StepKeeps(u, c);
  }

  /** The kernel of the example: who holds how much, who waits. */
  function State(free: nat, waiting: seq<nat>, held: map<nat, nat>): Kernel {
    Kernel([DISK], map[DISK := free], map[DISK := waiting], map p | p in held :: map[DISK := held[p]], waiting)
  }

  lemma StateIdle(free: nat, waiting: seq<nat>, held: map<nat, nat>, p: nat)
    requires p in held && p !in waiting
    ensures Idle(State(free, waiting, held), p)
  {
  }

  lemma Spawned(free: nat, held: map<nat, nat>, p: nat)
    requires p !in held && KInv(State(free, [], held))
    ensures Enabled(State(free, [], held), Spawn(p))
    ensures Step(State(free, [], held), Spawn(p)) == State(free, [], held[p := 0])
  {
    hide KInv;
    assert Nothing([DISK]) == map[DISK := 0];
    assert Step(State(free, [], held), Spawn(p)).held == State(free, [], held[p := 0]).held;
  }

  lemma Rebind<V>(a: V, b: V)
    ensures map[DISK := a][DISK := b] == map[DISK := b]
  {
  }

  lemma StateHeld(free: nat, waiting: seq<nat>, held: map<nat, nat>, p: nat, n: nat)
    requires p in held
    ensures State(free, waiting, held).held[p := map[DISK := n]] == State(free, waiting, held[p := n]).held
  {
    assert State(free, waiting, held[p := n]).held.Keys == State(free, waiting, held).held.Keys;
  }

  lemma Took(free: nat, held: map<nat, nat>, p: nat)
    requires p in held && free > 0 && KInv(State(free, [], held))
    ensures Enabled(State(free, [], held), WaitOn(p, DISK))
    ensures Step(State(free, [], held), WaitOn(p, DISK)) == State(free - 1, [], held[p := held[p] + 1])
  {
    hide KInv;
    StateIdle(free, [], held, p);
    Rebind(held[p], held[p] + 1);
    Rebind(free, free - 1);
    StateHeld(free, [], held, p, held[p] + 1);
  }

  lemma QueuedUp(held: map<nat, nat>, p: nat)
    requires p in held && KInv(State(0, [], held))
    ensures Enabled(State(0, [], held), WaitOn(p, DISK))
    ensures Step(State(0, [], held), WaitOn(p, DISK)) == State(0, [p], held)
  {
    hide KInv;
    StateIdle(0, [], held, p);
    assert [] + [p] == [p];
    Rebind([], [p]);
  }

  lemma Gave(held: map<nat, nat>, p: nat, q: nat)
    requires p in held && held[p] > 0
    ensures GiveBack(State(0, [q], held), p, DISK) == State(1, [q], held[p := held[p] - 1])
  {
    Rebind(0, 1);
    Rebind(held[p], held[p] - 1);
    StateHeld(0, [q], held, p, held[p] - 1);
  }

  lemma Woken(held: map<nat, nat>, q: nat)
    requires q in held
    ensures Wake(State(1, [q], held), DISK) == State(1, [], held[q := held[q] + 1])
  {
    assert RemoveFirst([q], q) == [] && [q][1..] == [];
    Rebind([q], []);
    Rebind(held[q], held[q] + 1);
    StateHeld(1, [], held, q, held[q] + 1);
  }

  lemma HandedOver(held: map<nat, nat>, p: nat, q: nat)
    requires p in held && q in held && p != q && held[p] > 0 && KInv(State(0, [q], held))
    ensures Enabled(State(0, [q], held), SignalOn(p, DISK))
    ensures Step(State(0, [q], held), SignalOn(p, DISK)) == State(1, [], held[p := held[p] - 1][q := held[q] + 1])
  {
    hide KInv, GiveBack, Wake;
    StateIdle(0, [q], held, p);
    Gave(held, p, q);
    Woken(held[p := held[p] - 1], q);
  }

  lemma ThreeSpawned()
    ensures KInv(OneDisk()) && KInv(State(1, [], map[1 := 0, 2 := 0, 3 := 0]))
    ensures Run(OneDisk(), DOUBLE_GRANT[..3]) == Some(State(1, [], map[1 := 0, 2 := 0, 3 := 0]))
  {
    hide KInv, Enabled, Step, Run, State;
    OneDiskInv();
    var k, c := OneDisk(), DOUBLE_GRANT;
    assert k == State(1, [], map[]) by { NoneHeld(); }
    RunNone(k);
    Spawned(1, map[], 1);
    RunOne(k, [], k, c[0]);
    Spawned(1, map[1 := 0], 2);
    assert [] + [c[0]] == c[..1] && c[..1] + [c[1]] == c[..2] && c[..2] + [c[2]] == c[..3];
    RunOne(k, c[..1], State(1, [], map[1 := 0]), c[1]);
    Spawned(1, map[1 := 0, 2 := 0], 3);
    RunOne(k, c[..2], State(1, [], map[1 := 0, 2 := 0]), c[2]);
  }

  lemma NoneHeld()
    ensures OneDisk() == State(1, [], map[])
  {
  }

  /** A run after which two processes hold the single instance of a resource. */
  lemma TwoHolders()
    ensures KInv(OneDisk()) && Instances(OneDisk(), DISK) == 1
    ensures Run(OneDisk(), DOUBLE_GRANT) == Some(State(0, [], map[1 := 0, 2 := 1, 3 := 1]))
  {
    hide KInv, Enabled, Step, Run, State;
    var k, c := OneDisk(), DOUBLE_GRANT;
    OneDiskInv();
    ThreeSpawned();
    var none, one, two := map[1 := 0, 2 := 0, 3 := 0], map[1 := 1, 2 := 0, 3 := 0], map[1 := 0, 2 := 1, 3 := 0];
    assert none[1 := 1] == one && one[1 := 0][2 := 1] == two && two[3 := 1] == map[1 := 0, 2 := 1, 3 := 1];
    assert c[..3] + [c[3]] == c[..4] && c[..4] + [c[4]] == c[..5] && c[..5] + [c[5]] == c[..6] && c[..6] + [c[6]] == c;
    Took(1, none, 1);
    RunOne(k, c[..3], State(1, [], none), c[3]);
    QueuedUp(one, 2);
    RunOne(k, c[..4], State(0, [], one), c[4]);
    HandedOver(one, 1, 2);
    RunOne(k, c[..5], State(0, [2], one), c[5]);
    Took(1, two, 3);
    RunOne(k, c[..6], State(1, [], two), c[6]);
  }

  lemma RunNone(k: Kernel)
    ensures Run(k, []) == Some(k)
  {
  }

  // ------------------------------------------------ a wake that is never seen again

  /** Process 2 is woken by 1's signal, takes the instance the counter still shows, and then
      blocks on the resource it alone holds. */
  const SELF_BLOCKED: seq<Call> :=
    [Spawn(1), Spawn(2), WaitOn(1, DISK), WaitOn(2, DISK), SignalOn(1, DISK), WaitOn(2, DISK), WaitOn(2, DISK)]

  /** The only holder is blocked on the resource, and nothing is free. */
  ghost predicate SelfBlocked(n: Kernel) {
    && KInv(n) && n.names == [DISK] && DISK in n.free && n.free[DISK] == 0
    && Waits(n, 2, DISK) && forall p :: Holds(n, p, DISK) ==> p == 2
  }

  /** What SelfBlocked says of the next caller, which waits for nothing. */
  lemma SelfBlockedFacts(n: Kernel, p: nat)
    requires SelfBlocked(n) && Idle(n, p)
    ensures p != 2 && p in n.held && DISK in n.held[p] && n.held[p][DISK] == 0 && DISK in n.queue && 2 in n.queue[DISK]
    ensures forall t :: t in n.free <==> t == DISK
  {
    assert Waits(n, 2, DISK) && !Waits(n, p, DISK) && !Holds(n, p, DISK);
    KeysOf(n, p, DISK);
  }

  lemma LeavingHolder(n: Kernel, p: nat)
    requires SelfBlocked(n) && Idle(n, p)
    ensures SelfBlocked(Leave(n, p))
  {
    SelfBlockedFacts(n, p);
    LeaveKeeps(n, p);
    hide KInv;
    NothingReleased(n, p);
    assert forall q :: Holds(Leave(n, p), q, DISK) ==> Holds(n, q, DISK);
  }

  lemma NothingReleased(n: Kernel, p: nat)
    requires KInv(n) && Idle(n, p) && n.names == [DISK]
    requires p in n.held && DISK in n.held[p] && n.held[p][DISK] == 0
    ensures Leave(n, p) == n.(held := n.held - {p})
  {
    hide KInv, Idle;
    assert ReleaseOne(n, p, DISK) == n;
    assert ReleaseFrom(n, p, 1) == n;
  }

  lemma SelfBlockedWait(n: Kernel, p: nat)
    requires SelfBlocked(n) && Idle(n, p) && p in n.held && DISK in n.held[p] && DISK in n.queue
    requires KInv(Wait(n, p, DISK))
    ensures SelfBlocked(Wait(n, p, DISK))
  {
    SelfBlockedFacts(n, p);
    hide KInv;
    assert forall q :: Holds(Wait(n, p, DISK), q, DISK) <==> Holds(n, q, DISK);
  }

  lemma SelfBlockedSpawn(n: Kernel, p: nat)
    requires SelfBlocked(n) && p !in n.held && KInv(n.(held := n.held[p := Nothing(n.names)]))
    ensures SelfBlocked(n.(held := n.held[p := Nothing(n.names)]))
  {
    hide KInv;
    var u := n.(held := n.held[p := Nothing(n.names)]);
    assert forall q :: Holds(u, q, DISK) ==> Holds(n, q, DISK);
  }

  lemma SelfBlockedStays(n: Kernel, c: Call)
    requires SelfBlocked(n) && Enabled(n, c)
    ensures SelfBlocked(Step(n, c))
  {
    hide SelfBlocked, Leave, Wait, Signal, Idle;
    SelfBlockedInv(n);
    StepKeeps(n, c);
    if !c.Spawn? {
      SelfBlockedFacts(n, c.pid);
    }
    hide KInv;
    match c
    case Spawn(p) => SelfBlockedSpawn(n, p);
    case WaitOn(p, t) => if t == DISK { SelfBlockedWait(n, p); } else { LeavingHolder(n, p); }
    case SignalOn(p, t) => LeavingHolder(n, p);
    case ExitOf(p) => LeavingHolder(n, p);
  }

  lemma SelfBlockedInv(n: Kernel)
    requires SelfBlocked(n)
    ensures KInv(n)
  {
  }

  lemma {:induction false} SelfBlockedForever(k: Kernel, cs: seq<Call>, ds: seq<Call>)
    requires Run(k, cs).Some? && SelfBlocked(Run(k, cs).value) && Run(k, cs + ds).Some?
    ensures SelfBlocked(Run(k, cs + ds).value)
  {
    hide SelfBlocked, KInv, Enabled, Step;
    if ds == [] {
      assert cs + ds == cs;
    } else {
      var before := ds[..|ds| - 1];
      assert (cs + ds)[..|cs + ds| - 1] == cs + before && (cs + ds)[|cs + ds| - 1] == ds[|ds| - 1];
      SelfBlockedForever(k, cs, before);
      SelfBlockedStays(Run(k, cs + before).value, ds[|ds| - 1]);
    }
  }

  /** So the continuations of a run alone do not tell: after this one, which holds a wake, no
      continuation at all reaches two holders. The points before its end do tell. */
  lemma WakeCanBeHidden()
    ensures KInv(OneDisk()) && Instances(OneDisk(), DISK) == 1 && Run(OneDisk(), SELF_BLOCKED).Some?
    ensures Wakes(OneDisk(), SELF_BLOCKED, DISK) > 0 && Exclusive(OneDisk(), SELF_BLOCKED, DISK)
  {
    hide KInv, Enabled, Step, Run, State, Wakes, SelfBlocked, Instances;
    var k, c := OneDisk(), SELF_BLOCKED;
    OneDiskInv();
    SelfBlockedRun();
    var n := Run(k, c).value;
    Accounting(k, c, DISK);
    TwoInstances();
    forall ds | Run(k, c + ds).Some? && Wakes(k, c + ds, DISK) == Wakes(k, c, DISK)
      ensures OneHolder(Run(k, c + ds).value, DISK)
    {
      SelfBlockedForever(k, c, ds);
      HolderOnly(Run(k, c + ds).value);
    }
  }

  lemma HolderOnly(n: Kernel)
    requires SelfBlocked(n)
    ensures OneHolder(n, DISK)
  {
    hide KInv;
  }

  lemma TwoInstances()
    ensures KInv(State(0, [2], map[1 := 0, 2 := 2])) ==> Instances(State(0, [2], map[1 := 0, 2 := 2]), DISK) >= 2
  {
    var n := State(0, [2], map[1 := 0, 2 := 2]);
    if KInv(n) {
      TotalMinus(n.held, DISK, 2);
    }
  }

  lemma SelfBlockedRun()
    ensures Run(OneDisk(), SELF_BLOCKED) == Some(State(0, [2], map[1 := 0, 2 := 2]))
    ensures SelfBlocked(State(0, [2], map[1 := 0, 2 := 2]))
  {
    hide KInv, Enabled, Step, Run, State;
    OneDiskInv();
    var k, c := OneDisk(), SELF_BLOCKED;
    var none, one, two, both := map[1 := 0, 2 := 0], map[1 := 1, 2 := 0], map[1 := 0, 2 := 1], map[1 := 0, 2 := 2];
    assert k == State(1, [], map[]) by { NoneHeld(); }
    assert none == map[1 := 0][2 := 0] && none[1 := 1] == one && one[1 := 0][2 := 1] == two && two[2 := 2] == both;
    assert [] + [c[0]] == c[..1] && c[..1] + [c[1]] == c[..2] && c[..2] + [c[2]] == c[..3] && c[..3] + [c[3]] == c[..4];
    assert c[..4] + [c[4]] == c[..5] && c[..5] + [c[5]] == c[..6] && c[..6] + [c[6]] == c;
    RunNone(k);
    Spawned(1, map[], 1);
    RunOne(k, [], k, c[0]);
    Spawned(1, map[1 := 0], 2);
    RunOne(k, c[..1], State(1, [], map[1 := 0]), c[1]);
    Took(1, none, 1);
    RunOne(k, c[..2], State(1, [], none), c[2]);
    QueuedUp(one, 2);
    RunOne(k, c[..3], State(0, [], one), c[3]);
    HandedOver(one, 1, 2);
    RunOne(k, c[..4], State(0, [2], one), c[4]);
    Took(1, two, 2);
    RunOne(k, c[..5], State(1, [], two), c[5]);
    QueuedUp(both, 2);
    RunOne(k, c[..6], State(0, [], both), c[6]);
    SelfBlockedState();
  }

  lemma SelfBlockedState()
    requires KInv(State(0, [2], map[1 := 0, 2 := 2]))
    ensures SelfBlocked(State(0, [2], map[1 := 0, 2 := 2]))
  {
    hide KInv;
  }
}
