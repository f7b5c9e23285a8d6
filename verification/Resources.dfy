/** Kernel resources: WAIT, SIGNAL and the release at exit
    (kernel/src/instructions.c, kwait and ksignal; kernel/src/kernel.c, liberar_recursos). */
module Resources {
  import opened Words

  type Name = string

  datatype Kernel = Kernel(
    names: seq<Name>,                  // recursos_kernel, in configuration order
    free: map<Name, nat>,              // cantidad of each resource
    queue: map<Name, seq<nat>>,        // colabloqueado of each resource
    held: map<nat, map<Name, nat>>,    // recursos_asignados of each live process
    blocked: seq<nat>)                 // cola_block, its entries blocked on resources

  ghost predicate KInv(k: Kernel) {
    && Distinct(k.names) && Distinct(k.blocked)
    && (forall r :: r in k.names <==> r in k.free) && (forall r :: r in k.names <==> r in k.queue)
    && (forall p :: p in k.held ==> forall r :: r in k.names <==> r in k.held[p])
    && (forall r :: r in k.queue ==> Distinct(k.queue[r]))
    && (forall p, r :: Waits(k, p, r) ==> p in k.held && p in k.blocked)
    && (forall p, r, t :: Waits(k, p, r) && Waits(k, p, t) ==> r == t)
    && (forall p :: p in k.blocked ==> exists r :: Waits(k, p, r))
  }

  predicate Waits(k: Kernel, p: nat, r: Name) {
    r in k.queue && p in k.queue[r]
  }

  // ------------------------------------------------------------------ operations

  function Gain(k: Kernel, p: nat, r: Name): Kernel
    requires p in k.held && r in k.held[p]
  {
    k.(held := k.held[p := k.held[p][r := k.held[p][r] + 1]])
  }

  /** Pop the first waiter of r, take it out of cola_block (remove_blocked) and give it
      an instance. */
  function Wake(k: Kernel, r: Name): Kernel
    requires r in k.queue && k.queue[r] != [] && k.queue[r][0] in k.held && r in k.held[k.queue[r][0]]
  {
    var q := k.queue[r][0];
    Gain(k.(queue := k.queue[r := k.queue[r][1..]], blocked := RemoveFirst(k.blocked, q)), q, r)
  }

  /** kwait with a known resource: block, or take one instance. */
  function Wait(k: Kernel, p: nat, r: Name): Kernel
    requires r in k.free && r in k.queue && p in k.held && r in k.held[p]
  {
    if k.free[r] == 0 then k.(queue := k.queue[r := k.queue[r] + [p]], blocked := k.blocked + [p])
    else Gain(k.(free := k.free[r := k.free[r] - 1]), p, r)
  }

  /** The counters ksignal changes before it looks at the queue. */
  function GiveBack(k: Kernel, p: nat, r: Name): Kernel
    requires r in k.free && p in k.held && r in k.held[p] && k.held[p][r] > 0
  {
    k.(free := k.free[r := k.free[r] + 1], held := k.held[p := k.held[p][r := k.held[p][r] - 1]])
  }

  /** ksignal by a holder: give one back; a waiter gets one besides, without the counter
      going down again. */
  function Signal(k: Kernel, p: nat, r: Name): Kernel
    requires KInv(k) && r in k.free && p in k.held && r in k.held[p] && k.held[p][r] > 0
  {
    var g := GiveBack(k, p, r);
    if k.queue[r] == [] then g
    else
      HeadWaits(k, r);
      Wake(g, r)
  }

  lemma HeadWaits(k: Kernel, r: Name)
    requires KInv(k) && r in k.queue && k.queue[r] != []
    ensures k.queue[r][0] in k.held && r in k.held[k.queue[r][0]]
  {
    assert Waits(k, k.queue[r][0], r);
  }

  /** Everything p holds of r goes back to the counter. */
  function Returned(k: Kernel, p: nat, r: Name): Kernel
    requires r in k.free && p in k.held && r in k.held[p]
  {
    k.(free := k.free[r := k.free[r] + k.held[p][r]], held := k.held[p := k.held[p][r := 0]])
  }

  /** The queue of r drained and refilled without the exiting pid. */
  function Rebuilt(k: Kernel, p: nat, r: Name): Kernel
    requires r in k.queue
  {
    k.(queue := k.queue[r := Without(k.queue[r], x => x == p)])
  }

  /** The first waiter of r gets an instance, and the counter goes down again. */
  function WakeAndTake(k: Kernel, r: Name): Kernel
    requires r in k.queue && k.queue[r] != [] && k.queue[r][0] in k.held && r in k.held[k.queue[r][0]]
    requires r in k.free && k.free[r] > 0
  {
    var w := Wake(k, r);
    w.(free := w.free[r := w.free[r] - 1])
  }

  /** liberar_recursos for one resource. */
  function ReleaseOne(k: Kernel, p: nat, r: Name): Kernel
    requires KInv(k) && p in k.held && r in k.names
  {
    if k.held[p][r] < 1 then k
    else
      var g := Rebuilt(Returned(k, p, r), p, r);
      if g.queue[r] == [] then g
      else
        RebuiltHead(k, p, r);
        WakeAndTake(g, r)
  }

  lemma RebuiltHead(k: Kernel, p: nat, r: Name)
    requires KInv(k) && p in k.held && r in k.names
    requires var q := Without(k.queue[r], x => x == p); q != []
    ensures var q := Without(k.queue[r], x => x == p); q[0] in k.held && r in k.held[q[0]]
  {
    var q := Without(k.queue[r], x => x == p);
    WithoutExact(k.queue[r], x => x == p);
    assert q[0] in q && Waits(k, q[0], r);
  }

  // ------------------------------------------------------------- invariant kept

  lemma TailOf(list: seq<nat>)
    requires Distinct(list) && list != []
    ensures Distinct(list[1..]) && forall x :: x in list[1..] <==> x in list && x != list[0]
  {
    assert list == [list[0]] + list[1..];
  }

  ghost predicate Idle(k: Kernel, p: nat) {
    p in k.held && forall r :: !Waits(k, p, r)
  }

  lemma WaitKeeps(k: Kernel, p: nat, r: Name)
    requires KInv(k) && Idle(k, p) && r in k.names
    ensures KInv(Wait(k, p, r))
  {
    KeysOf(k, p, r);
    var n := Wait(k, p, r);
    if k.free[r] == 0 {
      BlockKeeps(k, p, r);
    } else {
      hide KInv, Idle;
      SameQueues(k, n);
    }
  }

  lemma BlockKeeps(k: Kernel, p: nat, r: Name)
    requires KInv(k) && Idle(k, p) && r in k.names && r in k.queue
    ensures KInv(k.(queue := k.queue[r := k.queue[r] + [p]], blocked := k.blocked + [p]))
  {
    var n := k.(queue := k.queue[r := k.queue[r] + [p]], blocked := k.blocked + [p]);
    assert forall q, t :: Waits(n, q, t) <==> Waits(k, q, t) || (q == p && t == r);
    assert p !in k.queue[r] && p !in k.blocked by { assert !Waits(k, p, r); }
    AppendNew(k.queue[r], p);
    AppendNew(k.blocked, p);
    hide Waits, Distinct;
    forall q | q in n.blocked ensures exists t :: Waits(n, q, t) {
      if q == p {
        assert Waits(n, p, r);
      } else {
        var t :| Waits(k, q, t);
        assert Waits(n, q, t);
      }
    }
  }

  lemma AppendNew(list: seq<nat>, p: nat)
    requires Distinct(list) && p !in list
    ensures Distinct(list + [p]) && forall x :: x in list + [p] <==> x in list || x == p
  {
    assert forall i :: 0 <= i < |list| ==> list[i] in list;
  }

  /** Waking takes exactly the head waiter out of its queue and out of cola_block. */
  lemma WakeKeeps(k: Kernel, r: Name)
    requires KInv(k) && r in k.queue && k.queue[r] != []
    ensures k.queue[r][0] in k.held && r in k.held[k.queue[r][0]] && KInv(Wake(k, r))
    ensures forall q, t :: Waits(Wake(k, r), q, t) <==> Waits(k, q, t) && !(q == k.queue[r][0] && t == r)
  {
    HeadWaits(k, r);
    var h, n := k.queue[r][0], Wake(k, r);
    assert Waits(k, h, r);
    TailOf(k.queue[r]);
    RemoveFirstExact(k.blocked, h);
    hide RemoveFirst, Distinct;
    assert n.queue == k.queue[r := k.queue[r][1..]];
    forall q, t ensures Waits(n, q, t) <==> Waits(k, q, t) && !(q == h && t == r) {}
    WokenInv(k, n, h, r);
  }

  lemma WokenInv(k: Kernel, n: Kernel, h: nat, r: Name)
    requires KInv(k) && r in k.queue && h in k.held && r in k.held[h] && Waits(k, h, r)
    requires n == k.(queue := n.queue, blocked := n.blocked, held := k.held[h := k.held[h][r := k.held[h][r] + 1]])
    requires n.queue.Keys == k.queue.Keys && Distinct(n.blocked) && forall t :: t in n.queue ==> Distinct(n.queue[t])
    requires forall x :: x in n.blocked <==> x in k.blocked && x != h
    requires forall q, t :: Waits(n, q, t) <==> Waits(k, q, t) && !(q == h && t == r)
    ensures KInv(n)
  {
    hide Distinct;
    forall q | q in n.blocked ensures exists t :: Waits(n, q, t) {
      var t :| Waits(k, q, t);
      assert Waits(n, q, t);
    }
  }

  lemma SameQueues(k: Kernel, n: Kernel)
    requires KInv(k) && n.names == k.names && n.queue == k.queue && n.blocked == k.blocked
    requires n.free.Keys == k.free.Keys && n.held.Keys == k.held.Keys
    requires forall p :: p in k.held ==> n.held[p].Keys == k.held[p].Keys
    ensures KInv(n) && forall q, t :: Waits(n, q, t) <==> Waits(k, q, t)
  {
    assert forall q, t :: Waits(n, q, t) <==> Waits(k, q, t);
  }

  lemma SignalKeeps(k: Kernel, p: nat, r: Name)
    requires KInv(k) && r in k.free && p in k.held && r in k.held[p] && k.held[p][r] > 0
    ensures KInv(Signal(k, p, r))
  {
    hide KInv;
    KeysOf(k, p, r);
    SameQueues(k, GiveBack(k, p, r));
    if k.queue[r] != [] {
      WakeKeeps(GiveBack(k, p, r), r);
    }
  }

  lemma KeysOf(k: Kernel, p: nat, r: Name)
    requires KInv(k) && p in k.held && (r in k.names || r in k.free || r in k.queue)
    ensures r in k.names && r in k.free && r in k.queue && r in k.held[p]
  {
  }

  /** The two-queue rebuild keeps the order and drops the exiting pid; a process that
      waits for nothing is in no queue, so its exit changes no queue before the wake-up. */
  lemma RebuildOfIdle(k: Kernel, p: nat, r: Name)
    requires KInv(k) && Idle(k, p) && r in k.queue
    ensures Without(k.queue[r], x => x == p) == k.queue[r]
  {
    assert !Waits(k, p, r);
    NothingGone(k.queue[r], p);
  }

  lemma {:induction false} NothingGone(list: seq<nat>, p: nat)
    requires p !in list
    ensures Without(list, x => x == p) == list
  {
    if list != [] {
      NothingGone(list[1..], p);
      assert list == [list[0]] + list[1..];
    }
  }

  lemma ReleaseOneKeeps(k: Kernel, p: nat, r: Name)
    requires KInv(k) && Idle(k, p) && r in k.names
    ensures KInv(ReleaseOne(k, p, r)) && Idle(ReleaseOne(k, p, r), p)
    ensures ReleaseOne(k, p, r).names == k.names && ReleaseOne(k, p, r).held.Keys == k.held.Keys
  {
    KeysOf(k, p, r);
    RebuildOfIdle(k, p, r);
    hide KInv, Without, WakeAndTake, Waits, Returned;
    if k.held[p][r] >= 1 {
      var g := Returned(k, p, r);
      ReturnedKeeps(k, p, r);
      if k.queue[r] != [] {
        TakeKeeps(g, r);
      }
    }
  }

  lemma ReturnedKeeps(k: Kernel, p: nat, r: Name)
    requires KInv(k) && Idle(k, p) && r in k.names && r in k.free && r in k.queue && r in k.held[p]
    requires Without(k.queue[r], x => x == p) == k.queue[r]
    ensures var g := Returned(k, p, r);
            && KInv(g) && Idle(g, p) && g.names == k.names && g.held.Keys == k.held.Keys
            && g.queue == k.queue && r in g.free && g.free[r] == k.free[r] + k.held[p][r]
            && Rebuilt(g, p, r) == g && (forall q, t :: Waits(g, q, t) <==> Waits(k, q, t))
  {
    hide KInv, Without, Waits;
    ReturnedShape(k, p, r);
    SameQueues(k, Returned(k, p, r));
    assert k.queue[r := k.queue[r]] == k.queue;
  }

  /** Giving back touches the counter of r and the counts of p, and no queue. */
  lemma ReturnedShape(k: Kernel, p: nat, r: Name)
    requires p in k.held && r in k.free && r in k.held[p]
    ensures var g := Returned(k, p, r);
            && g.names == k.names && g.queue == k.queue && g.blocked == k.blocked
            && g.free.Keys == k.free.Keys && g.held.Keys == k.held.Keys
            && (forall q :: q in k.held ==> g.held[q].Keys == k.held[q].Keys)
  {
  }

  lemma TakeKeeps(k: Kernel, r: Name)
    requires KInv(k) && r in k.queue && k.queue[r] != [] && r in k.free && k.free[r] > 0
    ensures k.queue[r][0] in k.held && r in k.held[k.queue[r][0]] && KInv(WakeAndTake(k, r))
    ensures WakeAndTake(k, r).names == k.names && WakeAndTake(k, r).held.Keys == k.held.Keys
    ensures forall q, t :: Waits(WakeAndTake(k, r), q, t) ==> Waits(k, q, t)
  {
    hide KInv, Wake, Waits;
    WakeKeeps(k, r);
    WakeShape(k, r);
    SameQueues(Wake(k, r), WakeAndTake(k, r));
  }

  lemma WakeShape(k: Kernel, r: Name)
    requires r in k.queue && k.queue[r] != [] && k.queue[r][0] in k.held && r in k.held[k.queue[r][0]]
    ensures Wake(k, r).names == k.names && Wake(k, r).free == k.free && Wake(k, r).held.Keys == k.held.Keys
  {
  }
}
