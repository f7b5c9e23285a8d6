/** The kernel's resource counters, queues and process tables updated in place
    (kernel/src/instructions.c, kernel/src/kernel.c), proved against Resources. */
module KernelProcess {
  import opened Words
  import opened Resources
  import opened ResourceRuns
  import opened CallEffects

  class KernelState {
    const names: seq<Name>
    var cantidad: map<Name, nat>
    var colas: map<Name, seq<nat>>
    var asignados: map<nat, map<Name, nat>>
    var colaBlock: seq<nat>

    function Abs(): Kernel
      reads this
    {
      Kernel(names, cantidad, colas, asignados, colaBlock)
    }

    ghost predicate Valid()
      reads this
    {
      KInv(Abs())
    }

    /** The resources of the configuration, with their instances. */
    constructor (configured: seq<Name>, instances: map<Name, nat>)
      requires Distinct(configured) && forall r :: r in configured <==> r in instances
      ensures Valid() && names == configured && cantidad == instances && asignados == map[]
      ensures forall r :: r in configured ==> r in colas && colas[r] == []
    {
      names, cantidad := configured, instances;
      colas := map r | r in configured :: [];
      asignados, colaBlock := map[], [];
      new;
      assert forall p, r :: !Waits(Abs(), p, r);
    }

    /** buscar_recurso in recursos_kernel. */
    method Find(r: Name) returns (found: bool)
      ensures found <==> r in names
    {
      for i := 0 to |names|
        invariant r !in names[..i]
      {
        if names[i] == r {
          return true;
        }
      }
      return false;
    }

    /** pcb_create: the table of cargar_recursos_totales, one zero for each resource. */
    method Spawn(p: nat)
      requires Valid() && p !in asignados
      modifies this`asignados
      ensures Valid() && Abs() == Step(old(Abs()), Call.Spawn(p))
    {
      hide KInv;
      var table: map<Name, nat> := map[];
      for i := 0 to |names|
        modifies {}
        invariant table == Nothing(names[..i])
      {
        table := table[names[i] := 0];
        assert names[..i + 1] == names[..i] + [names[i]];
      }
      assert names[..|names|] == names;
      StepKeeps(Abs(), Call.Spawn(p));
      asignados := asignados[p := table];
    }

    /** kwait; false when the process must exit because there is no such resource. */
    method Kwait(p: nat, r: Name) returns (alive: bool)
      requires Valid() && Idle(Abs(), p)
      modifies this`cantidad, this`colas, this`asignados, this`colaBlock
      ensures alive <==> r in names
      ensures alive ==> Valid() && Abs() == Step(old(Abs()), WaitOn(p, r))
      ensures !alive ==> Abs() == old(Abs())
    {
      hide KInv, Waits;
      var found := Find(r);
      if !found {
        return false;
      }
      KeysOf(Abs(), p, r);
      StepKeeps(Abs(), WaitOn(p, r));
      if cantidad[r] <= 0 {
        colas := colas[r := colas[r] + [p]];
        colaBlock := colaBlock + [p];
      } else {
        cantidad := cantidad[r := cantidad[r] - 1];
        asignados := asignados[p := asignados[p][r := asignados[p][r] + 1]];
      }
      return true;
    }

    /** Pop the head of a queue, and give the process an instance. */
    method PopWaiter(r: Name)
      requires r in colas && colas[r] != [] && colas[r][0] in asignados && r in asignados[colas[r][0]]
      modifies this`colas, this`asignados, this`colaBlock
      ensures Abs() == Wake(old(Abs()), r)
    {
      var q := colas[r][0];
      colas := colas[r := colas[r][1..]];
      asignados := asignados[q := asignados[q][r := asignados[q][r] + 1]];
      RemoveBlocked(q);
    }

    /** remove_blocked. */
    method RemoveBlocked(p: nat)
      modifies this`colaBlock
      ensures colaBlock == RemoveFirst(old(colaBlock), p)
    {
      for i := 0 to |colaBlock|
        invariant colaBlock == old(colaBlock)
        invariant RemoveFirst(colaBlock, p) == colaBlock[..i] + RemoveFirst(colaBlock[i..], p)
      {
        assert colaBlock[i..][1..] == colaBlock[i + 1..];
        if colaBlock[i] == p {
          colaBlock := colaBlock[..i] + colaBlock[i + 1..];
          return;
        }
        assert colaBlock[..i] + ([colaBlock[i]] + RemoveFirst(colaBlock[i + 1..], p))
            == colaBlock[..i + 1] + RemoveFirst(colaBlock[i + 1..], p);
      }
    }

    /** ksignal; false when the process must exit: no such resource, or none held. */
    method Ksignal(p: nat, r: Name) returns (alive: bool)
      requires Valid() && Idle(Abs(), p)
      modifies this`cantidad, this`colas, this`asignados, this`colaBlock
      ensures alive <==> r in names && p in old(asignados) && r in old(asignados[p]) && old(asignados[p][r]) > 0
      ensures alive ==> Valid() && Abs() == Step(old(Abs()), SignalOn(p, r))
      ensures !alive ==> Abs() == old(Abs())
    {
      hide KInv, Waits;
      var found := Find(r);
      if !found {
        return false;
      }
      KeysOf(Abs(), p, r);
      if asignados[p][r] == 0 {
        return false;
      }
      StepKeeps(Abs(), SignalOn(p, r));
      cantidad := cantidad[r := cantidad[r] + 1];
      asignados := asignados[p := asignados[p][r := asignados[p][r] - 1]];
      if |colas[r]| > 0 {
        HeadWaits(old(Abs()), r);
        PopWaiter(r);
      }
      return true;
    }

    /** The first loop of liberar_recursos: drain the queue into colaAux, all but p. */
    static method Drain(queue: seq<nat>, p: nat) returns (aux: seq<nat>)
      ensures aux == Without(queue, x => x == p)
    {
      hide Without;
      var cola := queue;
      aux := [];
      while |cola| > 0
        invariant Without(queue, x => x == p) == aux + Without(cola, x => x == p)
      {
        DrainStep(aux, cola, p);
        var head := cola[0];
        cola := cola[1..];
        if head != p {
          aux := aux + [head];
        }
      }
      DrainEnd(aux, p);
    }

    /** The second: push everything back. */
    static method Refill(aux: seq<nat>) returns (cola: seq<nat>)
      ensures cola == aux
    {
      cola := [];
      var rest := aux;
      while |rest| > 0
        invariant cola + rest == aux
      {
        assert rest == [rest[0]] + rest[1..];
        cola := cola + [rest[0]];
        rest := rest[1..];
      }
    }

    method Rebuild(p: nat, r: Name)
      requires r in colas
      modifies this`colas
      ensures Abs() == Rebuilt(old(Abs()), p, r)
    {
      hide Without;
      var aux := Drain(colas[r], p);
      var cola := Refill(aux);
      colas := colas[r := cola];
    }

    /** One turn of the loop of liberar_recursos. */
    method ReleaseResource(p: nat, r: Name)
      requires Valid() && Idle(Abs(), p) && r in names
      modifies this`cantidad, this`colas, this`asignados, this`colaBlock
      ensures Valid() && Idle(Abs(), p) && Abs() == ReleaseOne(old(Abs()), p, r)
    {
      hide KInv, Waits, Idle, Without, ReleaseOne, RemoveFirst;
      ghost var k := Abs();
      KeysFor(k, p, r);
      Released(k, p, r);
      ReleaseOneKeeps(k, p, r);
      if asignados[p][r] < 1 {
        return;
      }
      cantidad := cantidad[r := cantidad[r] + asignados[p][r]];
      asignados := asignados[p := asignados[p][r := 0]];
      assert Abs() == Returned(k, p, r);
      Rebuild(p, r);
      ghost var g := Rebuilt(Returned(k, p, r), p, r);
      assert Abs() == g;
      if |colas[r]| > 0 {
        RebuiltHead(k, p, r);
        PopWaiter(r);
        cantidad := cantidad[r := cantidad[r] - 1];
        assert Abs() == WakeAndTake(g, r);
      }
    }

    /** exit_pcb: liberar_recursos, then the process is forgotten. */
    method ExitPcb(p: nat)
      requires Valid() && Idle(Abs(), p)
      modifies this`cantidad, this`colas, this`asignados, this`colaBlock
      ensures Valid() && Abs() == Leave(old(Abs()), p)
    {
      hide KInv, Waits, Idle, ReleaseOne;
      ghost var k := Abs();
      LeaveKeeps(k, p);
      for i := 0 to |names|
        invariant Valid() && Idle(Abs(), p)
        invariant ReleaseFrom(k, p, 0) == ReleaseFrom(Abs(), p, i)
      {
        ReleaseResource(p, names[i]);
      }
      asignados := asignados - {p};
    }

    /** One call of a running process, followed by its exit when the call ends it. */
    method Attend(c: Call)
      requires Valid() && Enabled(Abs(), c)
      modifies this`cantidad, this`colas, this`asignados, this`colaBlock
      ensures Valid() && Abs() == Step(old(Abs()), c)
      ensures c.Spawn? ==> asignados.Keys == old(asignados.Keys) + {c.pid}
      ensures Ends(old(Abs()), c) ==> asignados.Keys == old(asignados.Keys) - {c.pid}
      ensures !c.Spawn? && !Ends(old(Abs()), c) ==> asignados.Keys == old(asignados.Keys)
    {
      hide KInv, Waits, Idle, Leave, Wait, Signal;
      WhoRemains(Abs(), c);
      match c {
        case Spawn(p) => Spawn(p);
        case WaitOn(p, r) =>
          NamesFree(Abs(), r);
          var alive := Kwait(p, r);
          if !alive {
            ExitPcb(p);
          }
        case SignalOn(p, r) =>
          NamesFree(Abs(), r);
          if r in names {
            KeysFor(Abs(), p, r);
          }
          var alive := Ksignal(p, r);
          if !alive {
            ExitPcb(p);
          }
        case ExitOf(p) => ExitPcb(p);
      }
    }
  }

  lemma DrainStep(aux: seq<nat>, cola: seq<nat>, p: nat)
    requires cola != []
    ensures aux + Without(cola, x => x == p)
         == (if cola[0] == p then aux else aux + [cola[0]]) + Without(cola[1..], x => x == p)
  {
  }

  lemma DrainEnd(aux: seq<nat>, p: nat)
    ensures aux + Without([], x => x == p) == aux
  {
  }

  lemma KeysFor(k: Kernel, p: nat, r: Name)
    requires KInv(k) && Idle(k, p) && r in k.names
    ensures p in k.held && r in k.free && r in k.queue && r in k.held[p]
  {
  }

  lemma Released(k: Kernel, p: nat, r: Name)
    requires KInv(k) && Idle(k, p) && r in k.names && p in k.held && r in k.free && r in k.queue && r in k.held[p]
    ensures k.held[p][r] < 1 ==> ReleaseOne(k, p, r) == k
    ensures k.held[p][r] >= 1 ==>
              var g := Rebuilt(Returned(k, p, r), p, r);
              if g.queue[r] == [] then ReleaseOne(k, p, r) == g
              else g.queue[r][0] in g.held && r in g.held[g.queue[r][0]] && ReleaseOne(k, p, r) == WakeAndTake(g, r)
  {
    hide KInv, Idle, Without, Waits, RemoveFirst;
    if k.held[p][r] >= 1 && Without(k.queue[r], x => x == p) != [] {
      RebuiltHead(k, p, r);
    }
  }

  lemma NamesFree(k: Kernel, r: Name)
    requires KInv(k)
    ensures r in k.names <==> r in k.free
  {
  }
}
