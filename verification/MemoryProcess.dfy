/** The memory process as it runs: frames, user memory, tables and lists updated in place
    (memoria/src/memoria.c). Each handler is proved against the function of the same
    request on the abstract memory. */
module MemoryProcess {
  import opened Words
  import opened Paging
  import opened Access
  import opened SwapMap
  import opened SwapArea
  import opened Lifecycle
  import opened History
  import opened Files

  class Memoria {
    const pageSize: nat
    const policy: Policy
    const marcos: array<int>
    const ram: array<Byte>
    const fs: Filesystem
    var order: seq<nat>
    var count: map<nat, nat>
    var ents: map<Page, Entry>
    var touched: seq<Page>
    var clock: nat

    ghost predicate Wired()
      reads this, fs, fs.swap, fs.blocks
    {
      && fs.Valid() && fs.blockSize == pageSize
      && marcos != fs.swap && (ram as object) != marcos && (ram as object) != fs.swap
      && (fs.blocks as object) != marcos && (fs.blocks as object) != fs.swap && (fs.blocks as object) != ram
    }

    ghost function Abs(): Memory
      reads this, marcos, ram, fs, fs.swap, fs.blocks
    {
      Memory(pageSize, fs.base, policy, marcos[..], order, count, ents, touched, clock, ram[..], fs.Taken(), fs.blocks[..])
    }

    ghost predicate Valid()
      reads this, marcos, ram, fs, fs.swap, fs.blocks
    {
      Wired() && Inv(Abs())
    }

    /** inicializar_memoria and inicializar_marcos, for a memory of whole pages. */
    constructor (memorySize: nat, page: nat, algorithm: Policy, filesystem: Filesystem)
      requires page > 0 && memorySize % page == 0 && filesystem.Valid() && filesystem.blockSize == page
      requires forall b :: 0 <= b < filesystem.swap.Length ==> !filesystem.Taken()[b]
      ensures Valid() && Initial(Abs()) && fs == filesystem && pageSize == page && policy == algorithm
      ensures ram.Length == memorySize && marcos.Length == memorySize / page
      ensures fresh(marcos) && fresh(ram)
    {
      pageSize, policy, fs := page, algorithm, filesystem;
      marcos := new int[memorySize / page];
      ram := new Byte[memorySize];
      order, count, ents, touched, clock := [], map[], map[], [], 0;
      new;
      for i := 0 to marcos.Length
        invariant forall k :: 0 <= k < i ==> marcos[k] == -1
        invariant filesystem.Valid() && filesystem.Taken() == old(filesystem.Taken())
        invariant order == [] && count == map[] && ents == map[] && touched == [] && clock == 0
      {
        marcos[i] := -1;
      }
      JoinAddress(page, memorySize);
      InitialInv(Abs());
    }

    /** memcpy into memoria_usuario. */
    method CopyIn(at: nat, data: Bytes)
      requires at + |data| <= ram.Length
      modifies ram
      ensures ram[..] == Patch(old(ram[..]), at, data)
    {
      for i := 0 to |data|
        invariant forall k :: 0 <= k < ram.Length ==>
                    ram[k] == if at <= k < at + i then data[k - at] else old(ram[k])
      {
        ram[at + i] := data[i];
      }
    }

    /** hay_marcos_libres and the search of asignar_marco_libre. */
    method FindFree() returns (f: nat)
      ensures f == Paging.FirstFree(marcos[..])
    {
      f := 0;
      while f < marcos.Length && marcos[f] != -1
        invariant f <= marcos.Length
        invariant forall k :: 0 <= k < f ==> marcos[k] != -1
      {
        f := f + 1;
      }
      FirstFreeUnique(marcos[..], f);
    }

    /** The inner loop of obtener_total_pags_en_memoria: resident pages of one process. */
    method CollectProcess(pid: nat, list: seq<Page>) returns (longer: seq<Page>)
      requires Tables(Abs()) && pid in count
      ensures longer == list + ResidentOf(Abs(), pid, 0)
    {
      hide Distinct;
      ghost var m := Abs();
      longer := list;
      for j := 0 to count[pid]
        invariant longer + ResidentOf(m, pid, j) == list + ResidentOf(m, pid, 0)
      {
        ghost var rest := ResidentOf(m, pid, j + 1);
        if ents[Page(pid, j)].present {
          longer := longer + [Page(pid, j)];
        }
      }
    }

    /** obtener_total_pags_en_memoria. */
    method CollectResident() returns (list: seq<Page>)
      requires Tables(Abs())
      ensures list == Resident(Abs(), order)
    {
      hide Distinct, ResidentOf, Resident;
      ghost var m := Abs();
      list := [];
      for i := 0 to |order|
        invariant list + Resident(m, order[i..]) == Resident(m, order)
      {
        ResidentStep(m, list, i);
        list := CollectProcess(order[i], list);
      }
      assert order[|order|..] == [];
      NoneResident(m);
    }

    /** obtener_entrada_menor_tiempo_lru. */
    method LeastStamp(list: seq<Page>) returns (r: Option<Page>)
      requires forall k :: 0 <= k < |list| ==> list[k] in ents
      ensures r == MinStamp(Abs(), list)
    {
      var least: nat := MAX_LRU;
      r := None;
      for i := 0 to |list|
        invariant r == MinStamp(Abs(), list[..i])
        invariant least == if r.Some? then ents[r.value].stamp else MAX_LRU
      {
        assert list[..i + 1][..i] == list[..i];
        if ents[list[i]].stamp < least {
          least := ents[list[i]].stamp;
          r := Some(list[i]);
        }
      }
      assert list[..|list|] == list;
    }

    /** paginaAReemplazar: under FIFO the victim also leaves the list. */
    method ChooseVictim() returns (r: Option<Page>)
      requires Valid()
      modifies this`touched
      ensures r == Victim(old(Abs())) && touched == AfterChoice(old(Abs()))
    {
      match policy {
        case Fifo =>
          if touched == [] {
            return None;
          }
          r := Some(touched[0]);
          touched := touched[1..];
        case Lru =>
          var list := CollectResident();
          AllResidentAreEntries(Abs());
          r := LeastStamp(list);
      }
    }

    /** The victim's frame goes to swap when modified, and its entry is cleared. */
    method SwapOut(v: Page)
      requires Wired() && Shape(Abs()) && v in ents && EntryOk(Abs(), ents[v], v.pid) && ents[v].present
      modifies this`ents, fs.blocks
      ensures Wired() && Abs() == Evict(old(Abs()), v).(owners := old(marcos[..]), touched := touched)
    {
      var e := ents[v];
      if e.dirty {
        FrameInside(marcos.Length, pageSize, e.frame);
        fs.WriteBlock(e.block, ram[e.frame * pageSize..e.frame * pageSize + pageSize]);
      }
      ents := ents[v := e.(frame := -1, present := false, dirty := false)];
    }

    /** Frame f goes to page pg, and its swap block is read into it. */
    method SwapIn(pg: Page, f: nat)
      requires Wired() && Shape(Abs()) && pg in ents && f < marcos.Length && ents[pg].block < fs.swap.Length
      modifies this`ents, marcos, ram
      ensures Wired() && Abs() == Install(old(Abs()), pg, f)
    {
      marcos[f] := pg.pid;
      ents := ents[pg := ents[pg].(frame := f, present := true, dirty := false)];
      FrameInside(marcos.Length, pageSize, f);
      var data := fs.ReadBlock(ents[pg].block);
      CopyIn(f * pageSize, data);
    }

    /** The replacement branch of the handler, once the victim has been chosen. */
    method ReplacePage(v: Page, pg: Page, ghost m: Memory)
      requires Wired() && Abs() == m.(touched := AfterChoice(m)) && Shape(m)
      requires v in m.ents && EntryOk(m, m.ents[v], v.pid) && m.ents[v].present
      requires pg in m.ents && pg != v && m.ents[pg].block < |m.taken|
      modifies this`ents, marcos, ram, fs.blocks
      ensures Wired() && Abs() == Replace(m, v, pg)
    {
      hide Evict, Install, Patch;
      var f := ents[v].frame;
      SwapsAsOne(m, v, pg);
      SwapOut(v);
      SwapIn(pg, f);
    }

    /** PAGE_FAULT_KERNEL; false where the process dies for want of a page to replace. */
    method PageFault(pg: Page) returns (ok: bool)
      requires Valid() && pg in ents && !ents[pg].present
      modifies this`ents, this`touched, marcos, ram, fs.blocks
      ensures ok <==> ServeFault(old(Abs()), pg).Ok?
      ensures ok ==> Valid() && ServeFault(old(Abs()), pg) == Ok(Abs())
    {
      hide Inv, Replace, Install, Contents, Victim, AfterChoice;
      ghost var m := Abs();
      ServeFaultKeeps(m, pg);
      InvShape(m);
      InvEntry(m, pg);
      var f := FindFree();
      if f < marcos.Length {
        SwapIn(pg, f);
        return true;
      }
      var v := ChooseVictim();
      if v.None? {
        return false;
      }
      VictimResident(m, v.value);
      ReplacePage(v.value, pg, m);
      return true;
    }

    /** obtener_entradas_con_bit_presencia_1 and obtener_entrada_con_marco in the table of
        the process that owns frame f; None where the result would be NULL. */
    method EntryOfFrame(f: nat) returns (r: Option<Page>)
      requires Tables(Abs()) && f < marcos.Length
      ensures r == PageAt(Abs(), f)
    {
      hide Distinct;
      var pid := marcos[f];
      if pid < 0 || pid !in count {
        return None;
      }
      for i := 0 to count[pid]
        invariant FindFrame(Abs(), pid, f, 0) == FindFrame(Abs(), pid, f, i)
      {
        var e := ents[Page(pid, i)];
        if e.present && e.frame == f {
          return Some(Page(pid, i));
        }
      }
      return None;
    }

    /** actualizo_entrada_para_futuro_reemplazo and agregar_pagina_fifo; the list is
        searched by swap-block id. */
    method MarkUsed(pg: Page)
      requires Queue(Abs()) && SwapOwned(Abs()) && pg in ents
      modifies this`clock, this`ents, this`touched
      ensures Abs() == Touch(old(Abs()), pg)
    {
      clock := clock + 1;
      ents := ents[pg := ents[pg].(stamp := clock)];
      var found := false;
      for k := 0 to |touched|
        modifies {}
        invariant found <==> pg in touched[..k]
      {
        assert touched[..k + 1] == touched[..k] + [touched[k]];
        SameBlockSamePage(old(Abs()), pg, touched[k]);
        if ents[touched[k]].block == ents[pg].block {
          found := true;
        }
      }
      assert touched[..|touched|] == touched;
      if !found {
        touched := touched + [pg];
      }
    }

    /** MOV_OUT_CPU: escribir_memoria_cpu and marcar_pag_modificada. */
    method StoreWord(df: nat, v: Word) returns (ok: bool)
      requires Valid()
      modifies this`clock, this`ents, this`touched, ram
      ensures ok <==> Store(old(Abs()), df, v).Ok?
      ensures ok ==> Wired() && Store(old(Abs()), df, v) == Ok(Abs())
      ensures ok && InFrame(old(Abs()), df) ==> Valid()
    {
      hide Inv, Shape, Tables, Frames, SwapOwned, Queue, Stamps, Touch, InFrame, PageAt, Le, Patch;
      ghost var m := Abs();
      InvAll(m);
      if df + 4 > ram.Length {
        return false;
      }
      FrameOfAddress(m, df);
      var pg := EntryOfFrame(df / pageSize);
      if pg.None? {
        return false;
      }
      PageAtEntry(m, df / pageSize);
      CopyIn(df, Le(v));
      ents := ents[pg.value := ents[pg.value].(dirty := true)];
      PokeLists(m, pg.value, df, Le(v));
      assert Abs() == Poke(m, pg.value, df, Le(v));
      MarkUsed(pg.value);
      if InFrame(m, df) {
        HandleKeeps(m, MovOut(df, v));
      }
      return true;
    }

    /** MOV_IN_CPU: leer_memoria_cpu. */
    method LoadWord(df: nat) returns (r: Option<Word>)
      requires Valid()
      modifies this`clock, this`ents, this`touched
      ensures r.Some? <==> Load(old(Abs()), df).Ok?
      ensures r.Some? ==> Wired() && Load(old(Abs()), df) == Ok((Abs(), r.value))
      ensures r.Some? && InFrame(old(Abs()), df) ==> Valid()
    {
      hide Inv, Shape, Tables, Frames, SwapOwned, Queue, Stamps, Touch, InFrame, PageAt, FromLe;
      ghost var m := Abs();
      InvAll(m);
      if df + 4 > ram.Length {
        return None;
      }
      FrameOfAddress(m, df);
      var pg := EntryOfFrame(df / pageSize);
      if pg.None? {
        return None;
      }
      PageAtEntry(m, df / pageSize);
      var w := FromLe(ram[df..df + 4]);
      MarkUsed(pg.value);
      if InFrame(m, df) {
        HandleKeeps(m, MovIn(df));
      }
      return Some(w);
    }

    /** MARCO: obtener_marco_pid; Some(None) is the page fault, None a NULL entry. */
    method FrameOf(pid: nat, index: nat) returns (r: Outcome<Option<int>>)
      requires Tables(Abs())
      ensures r == if Page(pid, index) !in ents then Crash
                   else Ok(if ents[Page(pid, index)].present then Some(ents[Page(pid, index)].frame) else None)
    {
      if pid !in count || index >= count[pid] {
        return Crash;
      }
      var e := ents[Page(pid, index)];
      return Ok(if e.present then Some(e.frame) else None);
    }

    /** leer_memoria_fs. */
    method ReadForFs(df: nat) returns (r: Option<Bytes>)
      requires Valid()
      modifies this`clock, this`ents, this`touched
      ensures r.Some? <==> ReadPage(old(Abs()), df).Ok?
      ensures r.Some? ==> Wired() && ReadPage(old(Abs()), df) == Ok((Abs(), r.value))
    {
      hide Inv, Shape, Tables, Frames, SwapOwned, Queue, Stamps, Touch, PageAt;
      ghost var m := Abs();
      InvAll(m);
      if df + pageSize > ram.Length {
        return None;
      }
      FrameOfAddress(m, df);
      var pg := EntryOfFrame(df / pageSize);
      if pg.None? {
        return None;
      }
      PageAtEntry(m, df / pageSize);
      var data := ram[df..df + pageSize];
      MarkUsed(pg.value);
      return Some(data);
    }

    /** escribir_memoria_fs: the modified mark is commented out. */
    method WriteForFs(df: nat, data: Bytes) returns (ok: bool)
      requires Valid() && |data| == pageSize
      modifies ram
      ensures ok <==> WritePage(old(Abs()), df, data).Ok?
      ensures ok ==> Wired() && WritePage(old(Abs()), df, data) == Ok(Abs())
    {
      hide Tables, Frames, SwapOwned, Queue, Stamps, Clean, Patch;
      if df >= ram.Length {
        return false;
      }
      FrameOfAddress(Abs(), df);
      FrameInside(marcos.Length, pageSize, df / pageSize);
      CopyIn(df / pageSize * pageSize, data);
      return true;
    }

    // ------------------------------------------------------- creation and teardown

    /** The loop of inicializar_estructuras_memoria_nuevo_proceso. */
    method BuildTable(pid: nat, pages: nat)
      modifies this`ents
      ensures ents == old(ents) + NewEntries(pid, Zeros(pages))
    {
      hide NewEntries;
      NoEntries(pid);
      for i := 0 to pages
        invariant ents == old(ents) + NewEntries(pid, Zeros(i))
      {
        OneMoreEntry(pid, Zeros(i), 0);
        ents := ents[Page(pid, i) := Entry(-1, false, false, 0, MAX_LRU)];
      }
    }

    /** asignar_id_bloque_swap. */
    method AssignBlocks(pid: nat, ids: seq<nat>, ghost before: map<Page, Entry>)
      requires ents == before + NewEntries(pid, Zeros(|ids|))
      modifies this`ents
      ensures ents == before + NewEntries(pid, ids)
    {
      hide NewEntries;
      assert ids[..0] + Zeros(|ids|) == Zeros(|ids|);
      for i := 0 to |ids|
        invariant ents == before + NewEntries(pid, ids[..i] + Zeros(|ids| - i))
      {
        BlockAssigned(pid, ids, i);
        ents := ents[Page(pid, i) := ents[Page(pid, i)].(block := ids[i])];
      }
      assert ids[..|ids|] + Zeros(0) == ids;
    }

    /** INICIALIZAR_PROCESO for a process of that many pages; false where the filesystem
        process writes outside swap[]. */
    method CreateProcess(pid: nat, pages: nat) returns (ok: bool)
      requires Valid() && pid !in count
      modifies this`order, this`count, this`ents, fs.swap
      ensures ok <==> Create(old(Abs()), pid, pages).Ok?
      ensures ok ==> Valid() && Create(old(Abs()), pid, pages) == Ok(Abs())
    {
      hide Inv, SwapMap.Reserve, TakenOf, NewEntries;
      ghost var m := Abs();
      order := order + [pid];
      BuildTable(pid, pages);
      count := count[pid := pages];
      var ids := fs.Reserve(pages);
      if ids.Crash? {
        return false;
      }
      ReserveExact(m.taken, pages);
      AssignBlocks(pid, ids.value, m.ents);
      CreateKeeps(m, pid, pages);
      return true;
    }

    /** obtener_lista_id_bloque_swap. */
    method SwapBlocks(pid: nat) returns (ids: seq<nat>)
      requires Tables(Abs()) && pid in count
      ensures ids == BlocksOf(Abs(), pid)
    {
      hide Distinct;
      ids := [];
      for i := 0 to count[pid]
        invariant |ids| == i && forall k :: 0 <= k < i ==> ids[k] == ents[Page(pid, k)].block
      {
        ids := ids + [ents[Page(pid, i)].block];
      }
    }

    /** liberar_marcos_proceso: list the frames of the process, then free them. */
    method FreeFrames(pid: nat)
      modifies marcos
      ensures marcos[..] == Freed(old(marcos[..]), pid)
    {
      var mine: seq<nat> := [];
      for f := 0 to marcos.Length
        modifies {}
        invariant forall g: nat :: g in mine <==> g < f && marcos[g] == pid
      {
        if marcos[f] == pid {
          mine := mine + [f];
        }
      }
      for i := 0 to |mine|
        invariant forall f :: 0 <= f < marcos.Length ==> marcos[f] == if f in mine[..i] then -1 else old(marcos[f])
      {
        assert mine[..i + 1] == mine[..i] + [mine[i]];
        assert mine[i] in mine;
        marcos[mine[i]] := -1;
      }
      assert mine[..|mine|] == mine;
    }

    /** The loop of eliminar_proceso_memoria over paginas_utilizadas. */
    method ForgetTouched(pid: nat)
      requires Tables(Abs()) && Queue(Abs()) && pid in count
      modifies this`touched
      ensures touched == Without(old(touched), (pg: Page) => pg.pid == pid)
    {
      hide Without;
      ghost var before := touched;
      SameWithout(before, Below(pid, 0), x => false);
      NoneWithout(before);
      for i := 0 to count[pid]
        invariant touched == Without(before, Below(pid, i))
      {
        RemoveNext(before, pid, i);
        touched := RemoveFirst(touched, Page(pid, i));
      }
      SameWithout(before, Below(pid, count[pid]), (pg: Page) => pg.pid == pid);
    }

    /** FINALIZAR_PROCESO: limpiar_swap and eliminar_proceso_memoria. */
    method FinishProcess(pid: nat)
      requires Valid() && pid in count
      modifies this`order, this`count, this`ents, this`touched, marcos, fs.swap
      ensures Valid() && Finish(old(Abs()), pid) == Ok(Abs())
    {
      hide Inv, Shape, Tables, Queue, TakenOf, SwapMap.Release, BlocksOf, Without, Freed;
      ghost var m := Abs();
      InvAll(m);
      var ids := SwapBlocks(pid);
      fs.Release(ids);
      FreeFrames(pid);
      TablesOnly(m, Abs());
      ForgetTouched(pid);
      RemoveOne(m, pid);
      order := RemoveFirst(order, pid);
      count := count - {pid};
      ents := map pg | pg in ents && pg.pid != pid :: ents[pg];
      FinishKeeps(m, pid);
    }
  }

  // ------------------------------------------------------------------- lemmas

  function Zeros(n: nat): (z: seq<nat>)
    ensures |z| == n
  {
    seq(n, _ => 0)
  }

  lemma NoEntries(pid: nat)
    ensures NewEntries(pid, Zeros(0)) == map[]
  {
  }

  lemma OneMoreEntry(pid: nat, ids: seq<nat>, b: nat)
    ensures NewEntries(pid, ids + [b]) == NewEntries(pid, ids)[Page(pid, |ids|) := Entry(-1, false, false, b, MAX_LRU)]
    ensures Zeros(|ids|) + [0] == Zeros(|ids| + 1)
  {
    NewEntriesAt(pid, ids);
    NewEntriesAt(pid, ids + [b]);
  }

  lemma BlockAssigned(pid: nat, ids: seq<nat>, i: nat)
    requires i < |ids|
    ensures var now := NewEntries(pid, ids[..i] + Zeros(|ids| - i));
            Page(pid, i) in now
            && NewEntries(pid, ids[..i + 1] + Zeros(|ids| - i - 1))
               == now[Page(pid, i) := now[Page(pid, i)].(block := ids[i])]
  {
    NewEntriesAt(pid, ids[..i] + Zeros(|ids| - i));
    NewEntriesAt(pid, ids[..i + 1] + Zeros(|ids| - i - 1));
  }

  function Below(pid: nat, i: nat): Page -> bool {
    (pg: Page) => pg.pid == pid && pg.index < i
  }

  lemma {:induction false} SameWithout<T(!new)>(s: seq<T>, f: T -> bool, g: T -> bool)
    requires forall x :: x in s ==> f(x) == g(x)
    ensures Without(s, f) == Without(s, g)
  {
    if s != [] {
      SameWithout(s[1..], f, g);
    }
  }

  lemma {:induction false} NoneWithout<T>(s: seq<T>)
    ensures Without(s, x => false) == s
  {
    if s != [] {
      NoneWithout(s[1..]);
    }
  }

  /** Taking page i out too, when the pages of pid below i are already gone. */
  lemma {:induction false} RemoveNext(s: seq<Page>, pid: nat, i: nat)
    requires Distinct(s)
    ensures RemoveFirst(Without(s, Below(pid, i)), Page(pid, i)) == Without(s, Below(pid, i + 1))
  {
    if s != [] {
      var rest := s[1..];
      assert s == [s[0]] + rest && s[0] !in rest;
      if s[0] == Page(pid, i) {
        SameWithout(rest, Below(pid, i), Below(pid, i + 1));
      } else {
        RemoveNext(rest, pid, i);
        assert s[0] == Page(s[0].pid, s[0].index);
        var later := Without(rest, Below(pid, i));
        assert Without(s, Below(pid, i + 1))
            == (if Below(pid, i)(s[0]) then [] else [s[0]]) + Without(rest, Below(pid, i + 1));
        if !Below(pid, i)(s[0]) {
          RemoveLater(s[0], later, Page(pid, i));
          assert Without(s, Below(pid, i)) == [s[0]] + later;
        } else {
          assert Without(s, Below(pid, i)) == [] + later == later;
        }
      }
    }
  }

  lemma RemoveLater<T>(x: T, s: seq<T>, y: T)
    requires x != y
    ensures RemoveFirst([x] + s, y) == [x] + RemoveFirst(s, y)
  {
    assert ([x] + s)[1..] == s;
  }

  lemma {:induction false} RemoveOnly(s: seq<nat>, x: nat)
    requires Distinct(s)
    ensures RemoveFirst(s, x) == Without(s, y => y == x)
  {
    if s != [] {
      var rest := s[1..];
      assert s == [s[0]] + rest && s[0] !in rest;
      if s[0] == x {
        SameWithout(rest, y => y == x, y => false);
        NoneWithout(rest);
      } else {
        RemoveOnly(rest, x);
      }
    }
  }

  lemma RemoveOne(m: Memory, pid: nat)
    requires Tables(m)
    ensures RemoveFirst(m.order, pid) == Without(m.order, p => p == pid)
  {
    RemoveOnly(m.order, pid);
  }

  lemma TablesOnly(m: Memory, n: Memory)
    requires Tables(m) && Queue(m) && n == m.(owners := n.owners, taken := n.taken)
    ensures Tables(n) && Queue(n)
  {
  }

  lemma {:induction false} FirstFreeUnique(owners: seq<int>, f: nat)
    requires f <= |owners| && (f < |owners| ==> owners[f] == -1)
    requires forall k :: 0 <= k < f ==> owners[k] != -1
    ensures f == Paging.FirstFree(owners)
  {
    if f > 0 {
      FirstFreeUnique(owners[1..], f - 1);
    }
  }

  lemma ResidentStep(m: Memory, list: seq<Page>, i: nat)
    requires Tables(m) && i < |m.order|
    ensures list + Resident(m, m.order[i..])
         == (list + ResidentOf(m, m.order[i], 0)) + Resident(m, m.order[i + 1..])
  {
    hide Distinct, ResidentOf;
    assert m.order[i..][0] == m.order[i] && m.order[i..][1..] == m.order[i + 1..];
  }

  lemma NoneResident(m: Memory)
    requires Tables(m)
    ensures Resident(m, []) == []
  {
  }

  /** Replacing in place, in the order of the handler, is Replace. */
  lemma SwapsAsOne(m: Memory, v: Page, pg: Page)
    requires Shape(m) && v in m.ents && EntryOk(m, m.ents[v], v.pid) && m.ents[v].present
    requires pg in m.ents && pg != v && m.ents[pg].block < |m.taken|
    ensures var chosen := m.(touched := AfterChoice(m));
            && Shape(chosen) && EntryOk(chosen, chosen.ents[v], v.pid)
            && var out := Evict(chosen, v).(owners := m.owners, touched := chosen.touched);
               Shape(out) && pg in out.ents && out.ents[pg] == m.ents[pg] && |out.taken| == |m.taken|
               && Install(out, pg, m.ents[v].frame) == Replace(m, v, pg)
  {
    hide Patch, AfterChoice;
    var f := m.ents[v].frame;
    assert m.owners[f := -1][f := pg.pid] == m.owners[f := pg.pid];
    assert FrameBytes(m.(touched := AfterChoice(m)), f) == FrameBytes(m, f);
  }

  lemma InvAll(m: Memory)
    requires Inv(m)
    ensures Shape(m) && Tables(m) && Queue(m) && SwapOwned(m) && Stamps(m) && m.pageSize > 0
  {
  }

  lemma SameBlockSamePage(m: Memory, p: Page, q: Page)
    requires SwapOwned(m) && p in m.ents && q in m.ents
    ensures m.ents[p].block == m.ents[q].block <==> p == q
  {
    assert Backs(m, m.ents[p].block, p) && Backs(m, m.ents[q].block, q);
  }

  lemma PageAtEntry(m: Memory, f: nat)
    requires Tables(m) && f < |m.owners| && PageAt(m, f).Some?
    ensures PageAt(m, f).value in m.ents
  {
  }

  lemma PokeLists(m: Memory, pg: Page, df: nat, bs: Bytes)
    requires Queue(m) && SwapOwned(m) && pg in m.ents && df + |bs| <= |m.ram|
    ensures Queue(Poke(m, pg, df, bs)) && SwapOwned(Poke(m, pg, df, bs))
  {
    hide Patch;
    assert forall b, q :: Backs(Poke(m, pg, df, bs), b, q) <==> Backs(m, b, q);
  }
}
