/** Process creation and teardown in the memory process, with the swap blocks they
    reserve and free, and the accounting of frames and blocks. */
module Lifecycle {
  import opened Words
  import opened Paging
  import opened SwapMap

  function NewEntries(pid: nat, ids: seq<nat>): map<Page, Entry> {
    map i | 0 <= i < |ids| :: Page(pid, i) := Entry(-1, false, false, ids[i], MAX_LRU)
  }

  /** INICIALIZAR_PROCESO for a process of n pages. */
  function Create(m: Memory, pid: nat, n: nat): Outcome<Memory> {
    match Reserve(m.taken, n)
    case Crash => Crash
    case Ok((ids, taken)) =>
      Ok(m.(order := m.order + [pid], count := m.count[pid := n],
            ents := m.ents + NewEntries(pid, ids), taken := taken))
  }

  /** obtener_lista_id_bloque_swap. */
  function BlocksOf(m: Memory, pid: nat): seq<nat>
    requires Tables(m) && pid in m.count
  {
    seq(m.count[pid], i requires 0 <= i < m.count[pid] => m.ents[Page(pid, i)].block)
  }

  /** liberar_marcos_proceso. */
  function Freed(owners: seq<int>, pid: nat): seq<int> {
    seq(|owners|, f requires 0 <= f < |owners| => if owners[f] == pid then -1 else owners[f])
  }

  /** FINALIZAR_PROCESO. */
  function Finish(m: Memory, pid: nat): Outcome<Memory>
    requires Tables(m)
  {
    if pid !in m.count then Crash
    else Ok(m.(
      owners := Freed(m.owners, pid),
      order := Without(m.order, p => p == pid),
      count := m.count - {pid},
      ents := map pg | pg in m.ents && pg.pid != pid :: m.ents[pg],
      touched := Without(m.touched, (pg: Page) => pg.pid == pid),
      taken := Release(m.taken, BlocksOf(m, pid))))
  }

  // ------------------------------------------------------------------ creation

  lemma NewEntriesAt(pid: nat, ids: seq<nat>)
    ensures forall pg :: pg in NewEntries(pid, ids) <==> pg.pid == pid && pg.index < |ids|
    ensures forall pg :: pg in NewEntries(pid, ids) ==>
              NewEntries(pid, ids)[pg] == Entry(-1, false, false, ids[pg.index], MAX_LRU)
  {
    forall pg ensures pg in NewEntries(pid, ids) <==> pg.pid == pid && pg.index < |ids| {
      if pg.pid == pid && pg.index < |ids| {
        assert pg == Page(pid, pg.index);
      }
    }
  }

  /** How the entries of a created process sit beside the old ones. */
  ghost predicate Created(m: Memory, n: Memory, pid: nat, ids: seq<nat>) {
    && n == m.(order := m.order + [pid], count := m.count[pid := |ids|], ents := n.ents, taken := n.taken)
    && |n.taken| == |m.taken|
    && (forall pg :: pg in n.ents <==> pg in m.ents || (pg.pid == pid && pg.index < |ids|))
    && (forall pg :: pg in m.ents ==> n.ents[pg] == m.ents[pg])
    && (forall i: nat :: i < |ids| ==> n.ents[Page(pid, i)] == Entry(-1, false, false, ids[i], MAX_LRU))
    && (forall i :: 0 <= i < |ids| ==> ids[i] < |m.taken| && !m.taken[ids[i]])
    && Distinct(ids)
    && (forall b :: 0 <= b < |m.taken| ==> n.taken[b] == (m.taken[b] || b in ids))
  }

  lemma CreateCreated(m: Memory, pid: nat, k: nat)
    requires Inv(m) && pid !in m.count && Create(m, pid, k).Ok?
    ensures var ids := Reserve(m.taken, k).value.0; |ids| == k && Created(m, Create(m, pid, k).value, pid, ids)
  {
    hide Frames, SwapOwned, Queue, Stamps, Clean, Reserve, NewEntries, Created, Increasing;
    ReserveExact(m.taken, k);
    var ids := Reserve(m.taken, k).value.0;
    assert Distinct(ids) by { IncreasingDistinct(ids); }
    CreatedFrom(m, Create(m, pid, k).value, pid, ids);
  }

  lemma IncreasingDistinct(ids: seq<nat>)
    requires Increasing(ids)
    ensures Distinct(ids)
  {
  }

  lemma CreatedFrom(m: Memory, n: Memory, pid: nat, ids: seq<nat>)
    requires Tables(m) && pid !in m.count && |n.taken| == |m.taken| && Distinct(ids)
    requires n == m.(order := m.order + [pid], count := m.count[pid := |ids|],
                     ents := m.ents + NewEntries(pid, ids), taken := n.taken)
    requires forall i :: 0 <= i < |ids| ==> ids[i] < |m.taken| && !m.taken[ids[i]]
    requires forall b :: 0 <= b < |m.taken| ==> n.taken[b] == (m.taken[b] || b in ids)
    ensures Created(m, n, pid, ids)
  {
    hide NewEntries, Distinct;
    NewEntriesAt(pid, ids);
  }

  lemma CreatedTables(m: Memory, n: Memory, pid: nat, ids: seq<nat>)
    requires Tables(m) && pid !in m.count && Created(m, n, pid, ids)
    ensures Tables(n)
  {
    forall p ensures p in n.order <==> p in n.count {
      assert p in m.order + [pid] <==> p in m.order || p == pid;
    }
    assert Distinct(n.order) by {
      assert forall k :: 0 <= k < |m.order| ==> m.order[k] in m.order;
    }
  }

  lemma CreatedFrames(m: Memory, n: Memory, pid: nat, ids: seq<nat>)
    requires Shape(m) && Tables(m) && Frames(m) && pid !in m.count && Created(m, n, pid, ids)
    ensures Shape(n) && Frames(n)
  {
    hide Tables;
    forall pg | pg in n.ents ensures EntryOk(n, n.ents[pg], pg.pid) {
      if pg in m.ents {
        assert EntryOk(m, m.ents[pg], pg.pid);
      } else {
        assert n.ents[Page(pid, pg.index)] == n.ents[pg] && ids[pg.index] in ids;
      }
    }
    assert OneHolder(n) && AllHeld(n) by {
      assert forall pg :: pg in n.ents && pg !in m.ents ==> pg == Page(pid, pg.index);
      assert forall f, pg :: Holds(n, f, pg) <==> Holds(m, f, pg);
      forall f | 0 <= f < |n.owners| && n.owners[f] != -1 ensures exists pg :: Holds(n, f, pg) {
        var pg :| Holds(m, f, pg);
      }
    }
  }

  lemma CreatedSwap(m: Memory, n: Memory, pid: nat, ids: seq<nat>)
    requires Shape(m) && Frames(m) && SwapOwned(m) && Created(m, n, pid, ids)
    requires forall i :: Page(pid, i) !in m.ents
    ensures SwapOwned(n)
  {
    forall b, p, q | Backs(n, b, p) && Backs(n, b, q) ensures p == q {
      BackerOf(m, n, pid, ids, b, p);
      BackerOf(m, n, pid, ids, b, q);
    }
    forall b | 0 <= b < |n.taken| && n.taken[b] ensures exists pg :: Backs(n, b, pg) {
      if m.taken[b] {
        var pg :| Backs(m, b, pg);
        assert Backs(n, b, pg);
      } else {
        var i :| 0 <= i < |ids| && ids[i] == b;
        assert Backs(n, b, Page(pid, i));
      }
    }
  }

  lemma BackerOf(m: Memory, n: Memory, pid: nat, ids: seq<nat>, b: nat, p: Page)
    requires Frames(m) && Created(m, n, pid, ids) && Backs(n, b, p)
    ensures b < |m.taken|
    ensures if m.taken[b] then Backs(m, b, p) else p.pid == pid && p.index < |ids| && ids[p.index] == b
  {
    if p in m.ents {
      assert EntryOk(m, m.ents[p], p.pid);
    } else {
      assert p == Page(pid, p.index);
    }
  }

  lemma CreatedRest(m: Memory, n: Memory, pid: nat, ids: seq<nat>)
    requires Queue(m) && Stamps(m) && Created(m, n, pid, ids)
    ensures Queue(n) && Stamps(n)
  {
    assert forall pg :: pg in n.ents && pg !in m.ents ==> pg == Page(pid, pg.index);
    assert forall t, pg :: t != MAX_LRU ==> (Stamped(n, t, pg) <==> Stamped(m, t, pg));
  }

  lemma CreatedInv(m: Memory, n: Memory, pid: nat, ids: seq<nat>)
    requires Inv(m) && pid !in m.count && Created(m, n, pid, ids)
    ensures Inv(n)
  {
    hide Tables, Shape, EntriesOk, OneHolder, AllHeld, SwapOwned, Queue, Stamps, Clean, Created;
    CreatedTables(m, n, pid, ids);
    CreatedFrames(m, n, pid, ids);
    NoPages(m, pid);
    CreatedSwap(m, n, pid, ids);
    CreatedRest(m, n, pid, ids);
    CreatedClean(m, n, pid, ids);
  }

  /** The new process's pages, all absent, with the old contents of its swap blocks. */
  ghost predicate FreshPages(m: Memory, n: Memory, pid: nat, ids: seq<nat>)
    requires Inv(n)
  {
    forall i :: 0 <= i < |ids| ==>
      && Page(pid, i) in n.ents && !n.ents[Page(pid, i)].present
      && m.base + ids[i] < |m.disk| && Contents(n)[Page(pid, i)] == m.disk[m.base + ids[i]]
  }

  /** Creating a process works exactly when its pages fit in the free swap blocks; it
      keeps the invariant, leaves the pages of every other process alone and gives the
      new one what its blocks held before. */
  lemma CreateKeeps(m: Memory, pid: nat, k: nat)
    requires Inv(m) && pid !in m.count
    ensures Create(m, pid, k).Ok? <==> k <= |FreeIds(m.taken, 0)|
    ensures var r := Create(m, pid, k);
            r.Ok? ==>
              && Inv(r.value) && r.value.count == m.count[pid := k]
              && (forall pg :: pg in m.ents ==> pg in r.value.ents && Contents(r.value)[pg] == Contents(m)[pg])
              && FreshPages(m, r.value, pid, FreeIds(m.taken, 0)[..k])
  {
    hide Shape, OneHolder, AllHeld, EntriesOk, SwapOwned, Queue, Stamps, FreeIds, PageBytes, Tables, Clean, Reserve,
         NewEntries, FreshPages, Contents;
    ReserveExact(m.taken, k);
    if Create(m, pid, k).Ok? {
      var n, ids := Create(m, pid, k).value, Reserve(m.taken, k).value.0;
      CreateCreated(m, pid, k);
      CreatedInv(m, n, pid, ids);
      CreatedContents(m, n, pid, ids);
      ReserveList(m.taken, k);
    }
  }

  lemma ReserveList(taken: seq<bool>, k: nat)
    requires Reserve(taken, k).Ok?
    ensures k <= |FreeIds(taken, 0)| && Reserve(taken, k).value.0 == FreeIds(taken, 0)[..k]
  {
    hide FreeIds;
  }

  lemma CreatedContents(m: Memory, n: Memory, pid: nat, ids: seq<nat>)
    requires Inv(m) && Inv(n) && Created(m, n, pid, ids)
    ensures forall pg :: pg in m.ents ==> pg in n.ents && Contents(n)[pg] == Contents(m)[pg]
    ensures FreshPages(m, n, pid, ids)
  {
    hide OneHolder, AllHeld, SwapOwned, Queue, Stamps, PageBytes, Tables, Clean;
    CreatedClean(m, n, pid, ids);
  }

  lemma NoPages(m: Memory, pid: nat)
    requires Tables(m) && pid !in m.count
    ensures forall i :: Page(pid, i) !in m.ents
  {
  }

  lemma CreatedClean(m: Memory, n: Memory, pid: nat, ids: seq<nat>)
    requires Inv(m) && Shape(n) && EntriesOk(n) && Created(m, n, pid, ids)
    ensures Clean(n)
    ensures forall pg :: pg in m.ents ==> PageBytes(n, pg) == PageBytes(m, pg)
    ensures forall i :: 0 <= i < |ids| ==> Page(pid, i) in n.ents && PageBytes(n, Page(pid, i)) == m.disk[m.base + ids[i]]
  {
    hide OneHolder, AllHeld, SwapOwned, Queue, Stamps, FrameBytes, Tables;
    SameFrameBytes(m, n);
    forall pg | pg in m.ents ensures CleanAt(n, pg) && PageBytes(n, pg) == PageBytes(m, pg) {
      assert CleanAt(m, pg);
    }
    assert forall pg :: pg in n.ents && pg !in m.ents ==> pg == Page(pid, pg.index) && CleanAt(n, pg);
  }

  // ------------------------------------------------------------------- teardown

  /** Everything that belonged to pid is free or gone, and nothing else moved. */
  ghost predicate Finished(m: Memory, n: Memory, pid: nat) {
    && n == m.(owners := n.owners, order := n.order, count := m.count - {pid}, ents := n.ents,
               touched := n.touched, taken := n.taken)
    && |n.owners| == |m.owners| && |n.taken| == |m.taken|
    && (forall f :: 0 <= f < |m.owners| ==> n.owners[f] == if m.owners[f] == pid then -1 else m.owners[f])
    && (forall pg :: pg in n.ents <==> pg in m.ents && pg.pid != pid)
    && (forall pg :: pg in n.ents ==> n.ents[pg] == m.ents[pg])
    && (forall b :: 0 <= b < |m.taken| ==>
          n.taken[b] == (m.taken[b] && !exists i: nat :: Page(pid, i) in m.ents && Backs(m, b, Page(pid, i))))
  }

  lemma FinishFinished(m: Memory, pid: nat)
    requires Shape(m) && Tables(m) && pid in m.count
    ensures Finish(m, pid).Ok? && Finished(m, Finish(m, pid).value, pid)
  {
    var ids := BlocksOf(m, pid);
    forall b | 0 <= b < |m.taken|
      ensures b in ids <==> exists i: nat :: Page(pid, i) in m.ents && Backs(m, b, Page(pid, i))
    {
      if b in ids {
        var i :| 0 <= i < |ids| && ids[i] == b;
        assert Page(pid, i) in m.ents && Backs(m, b, Page(pid, i));
      }
      if exists i: nat :: Page(pid, i) in m.ents && Backs(m, b, Page(pid, i)) {
        var i: nat :| Page(pid, i) in m.ents && Backs(m, b, Page(pid, i));
        assert ids[i] == b;
      }
    }
  }

  lemma FinishedLists(m: Memory, n: Memory, pid: nat)
    requires Tables(m) && Queue(m) && Stamps(m) && Finished(m, n, pid)
    requires n.order == Without(m.order, p => p == pid)
    requires n.touched == Without(m.touched, (pg: Page) => pg.pid == pid)
    ensures Tables(n) && Queue(n) && Stamps(n)
  {
    hide Without;
    WithoutExact(m.order, p => p == pid);
    WithoutExact(m.touched, (pg: Page) => pg.pid == pid);
    assert forall t, pg :: Stamped(n, t, pg) ==> Stamped(m, t, pg);
    assert forall k :: 0 <= k < |n.touched| ==> n.touched[k] in n.touched;
  }

  lemma FinishedFrames(m: Memory, n: Memory, pid: nat)
    requires Shape(m) && Frames(m) && SwapOwned(m) && Finished(m, n, pid)
    ensures Shape(n) && Frames(n)
  {
    forall pg | pg in n.ents ensures EntryOk(n, n.ents[pg], pg.pid) {
      assert EntryOk(m, m.ents[pg], pg.pid) && Backs(m, m.ents[pg].block, pg);
    }
    assert forall f, pg :: Holds(n, f, pg) ==> Holds(m, f, pg);
    forall f | 0 <= f < |n.owners| && n.owners[f] != -1 ensures exists pg :: Holds(n, f, pg) {
      var pg :| Holds(m, f, pg);
      assert Holds(n, f, pg);
    }
  }

  lemma FinishedSwap(m: Memory, n: Memory, pid: nat)
    requires SwapOwned(m) && Finished(m, n, pid)
    ensures SwapOwned(n)
  {
    assert forall b, pg :: Backs(n, b, pg) ==> Backs(m, b, pg);
    forall b | 0 <= b < |n.taken| && n.taken[b] ensures exists pg :: Backs(n, b, pg) {
      var pg :| Backs(m, b, pg);
      assert Page(pg.pid, pg.index) == pg;
      assert Backs(n, b, pg);
    }
  }

  lemma FinishedClean(m: Memory, n: Memory, pid: nat)
    requires Inv(m) && Shape(n) && EntriesOk(n) && Finished(m, n, pid)
    ensures Clean(n)
    ensures forall pg :: pg in n.ents ==> PageBytes(n, pg) == PageBytes(m, pg)
  {
    hide OneHolder, AllHeld, SwapOwned, Queue, Stamps, FrameBytes, Tables;
    SameFrameBytes(m, n);
    forall pg | pg in n.ents ensures CleanAt(n, pg) && PageBytes(n, pg) == PageBytes(m, pg) {
      assert CleanAt(m, pg);
    }
  }

  /** Finishing a process frees its frames and blocks, takes its pages off the lists and
      leaves every page of every other process as it was. */
  lemma FinishKeeps(m: Memory, pid: nat)
    requires Inv(m) && pid in m.count
    ensures var r := Finish(m, pid);
            r.Ok? && Inv(r.value) && r.value.count == m.count - {pid} && Finished(m, r.value, pid)
            && (forall pg :: pg in r.value.ents ==> Contents(r.value)[pg] == Contents(m)[pg])
            && (forall f :: 0 <= f < |r.value.owners| ==> r.value.owners[f] != pid)
            && (forall pg :: pg in r.value.touched ==> pg.pid != pid)
  {
    hide Tables, Shape, EntriesOk, OneHolder, AllHeld, SwapOwned, Queue, Stamps, Clean, PageBytes, Without;
    var n := Finish(m, pid).value;
    FinishFinished(m, pid);
    FinishedLists(m, n, pid);
    FinishedFrames(m, n, pid);
    FinishedSwap(m, n, pid);
    FinishedClean(m, n, pid);
    WithoutExact(m.touched, (pg: Page) => pg.pid == pid);
  }
}
