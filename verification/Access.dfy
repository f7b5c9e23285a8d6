/** CPU accesses to user memory by physical address (escribir_memoria_cpu and
    leer_memoria_cpu): the touched bytes, the dirty bit, the access stamp and the
    replacement list. */
module Access {
  import opened Words
  import opened Paging

  // ------------------------------------------------------- frame to page entry

  /** First entry of process pid, from index i on, that is resident in frame f:
      obtener_entradas_con_bit_presencia_1 followed by obtener_entrada_con_marco. */
  function FindFrame(m: Memory, pid: nat, f: nat, i: nat): (r: Option<Page>)
    requires Tables(m) && pid in m.count
    ensures r.Some? ==> r.value.pid == pid && Holds(m, f, r.value)
    ensures r.None? ==> forall k :: i <= k < m.count[pid] ==> !Holds(m, f, Page(pid, k))
    decreases m.count[pid] - i
  {
    if i >= m.count[pid] then None
    else if Holds(m, f, Page(pid, i)) then Some(Page(pid, i))
    else FindFrame(m, pid, f, i + 1)
  }

  /** marco_desde_df and the search in the table of the frame's owner; None where
      the C code would dereference NULL. */
  function PageAt(m: Memory, f: nat): Option<Page>
    requires Tables(m) && f < |m.owners|
  {
    var pid := m.owners[f];
    if pid >= 0 && pid in m.count then FindFrame(m, pid, f, 0) else None
  }

  /** The lookup from a frame inverts translation. */
  lemma PageAtHolder(m: Memory, pg: Page)
    requires Inv(m) && pg in m.ents && m.ents[pg].present && EntryOk(m, m.ents[pg], pg.pid)
    ensures PageAt(m, m.ents[pg].frame) == Some(pg)
  {
    var f := m.ents[pg].frame;
    assert Holds(m, f, pg);
    assert Page(pg.pid, pg.index) == pg && pg.index < m.count[pg.pid];
    assert FindFrame(m, pg.pid, f, 0).Some?;
  }

  lemma FrameOfAddress(m: Memory, df: nat)
    requires Shape(m) && df < |m.ram|
    ensures df / m.pageSize < |m.owners|
  {
    var P, F := m.pageSize, |m.owners|;
    JoinAddress(P, df);
    if F <= df / P {
      if F < df / P {
        FramesApart(P, F, df / P);
      }
    }
  }

  // ------------------------------------------------------------------- handlers

  /** actualizo_entrada_para_futuro_reemplazo. */
  function Touch(m: Memory, pg: Page): Memory
    requires pg in m.ents
  {
    m.(clock := m.clock + 1,
       ents := m.ents[pg := m.ents[pg].(stamp := m.clock + 1)],
       touched := if pg in m.touched then m.touched else m.touched + [pg])
  }

  /** memcpy into memoria_usuario and cambiar_bit_modificado. */
  function Poke(m: Memory, pg: Page, df: nat, bs: Bytes): Memory
    requires pg in m.ents && df + |bs| <= |m.ram|
  {
    m.(ram := Patch(m.ram, df, bs), ents := m.ents[pg := m.ents[pg].(dirty := true)])
  }

  /** MOV_OUT_CPU. */
  function Store(m: Memory, df: nat, v: Word): Outcome<Memory>
    requires Shape(m) && Tables(m)
  {
    if df + 4 > |m.ram| then Crash
    else
      FrameOfAddress(m, df);
      match PageAt(m, df / m.pageSize)
      case None => Crash
      case Some(pg) => Ok(Touch(Poke(m, pg, df, Le(v)), pg))
  }

  /** MOV_IN_CPU. */
  function Load(m: Memory, df: nat): Outcome<(Memory, Word)>
    requires Shape(m) && Tables(m)
  {
    if df + 4 > |m.ram| then Crash
    else
      FrameOfAddress(m, df);
      match PageAt(m, df / m.pageSize)
      case None => Crash
      case Some(pg) => Ok((Touch(m, pg), FromLe(m.ram[df..df + 4])))
  }

  // --------------------------------------------------------------------- proofs

  lemma StoreKeepsShape(m: Memory, df: nat, v: Word)
    requires Shape(m) && Tables(m) && Store(m, df, v).Ok?
    ensures Store(m, df, v).value.pageSize == m.pageSize && Store(m, df, v).value.count == m.count
  {
  }

  lemma TouchStamps(m: Memory, pg: Page)
    requires Stamps(m) && pg in m.ents
    ensures Stamps(Touch(m, pg))
  {
    var n := Touch(m, pg);
    forall t, p, q | t != MAX_LRU && Stamped(n, t, p) && Stamped(n, t, q) ensures p == q {
      assert p != pg ==> Stamped(m, t, p);
      assert q != pg ==> Stamped(m, t, q);
    }
  }

  lemma TouchQueue(m: Memory, pg: Page)
    requires Queue(m) && pg in m.ents && m.ents[pg].present
    ensures Queue(Touch(m, pg))
  {
  }

  /** n differs from m in stamps, the clock, the list and dirty bits only. */
  ghost predicate SamePlacement(m: Memory, n: Memory) {
    && n.pageSize == m.pageSize && n.base == m.base && n.owners == m.owners && n.order == m.order
    && n.count == m.count && n.taken == m.taken && n.disk == m.disk && |n.ram| == |m.ram|
    && n.ents.Keys == m.ents.Keys
    && forall q :: q in m.ents ==>
         n.ents[q].frame == m.ents[q].frame && n.ents[q].present == m.ents[q].present
         && n.ents[q].block == m.ents[q].block && (n.ents[q].dirty ==> n.ents[q].present)
  }

  lemma PlacementKept(m: Memory, n: Memory)
    requires Shape(m) && Tables(m) && Frames(m) && SwapOwned(m) && SamePlacement(m, n)
    ensures Shape(n) && Tables(n) && Frames(n) && SwapOwned(n)
  {
    assert forall pg :: pg in n.ents <==> pg in m.ents;
    assert forall f, pg :: Holds(n, f, pg) <==> Holds(m, f, pg);
    assert forall b, pg :: Backs(n, b, pg) <==> Backs(m, b, pg);
    assert EntriesOk(n) by {
      forall pg | pg in n.ents ensures EntryOk(n, n.ents[pg], pg.pid) {
        assert EntryOk(m, m.ents[pg], pg.pid);
      }
    }
    assert AllHeld(n) by {
      forall f | 0 <= f < |n.owners| && n.owners[f] != -1 ensures exists pg :: Holds(n, f, pg) {
        var pg :| Holds(m, f, pg);
      }
    }
    forall b | 0 <= b < |n.taken| && n.taken[b] ensures exists pg :: Backs(n, b, pg) {
      var pg :| Backs(m, b, pg);
    }
  }

  lemma TouchKeeps(m: Memory, pg: Page)
    requires Inv(m) && pg in m.ents && m.ents[pg].present
    ensures Inv(Touch(m, pg)) && SamePages(m, Touch(m, pg))
  {
    hide Tables, OneHolder, AllHeld, SwapOwned, Queue, Stamps, FrameBytes;
    var n := Touch(m, pg);
    PlacementKept(m, n);
    TouchStamps(m, pg);
    TouchQueue(m, pg);
    forall q | q in m.ents ensures PageBytes(n, q) == PageBytes(m, q) && CleanAt(n, q) {
      assert CleanAt(m, q);
      SameFrameBytes(m, n);
    }
  }

  lemma PokeBytes(m: Memory, pg: Page, off: nat, bs: Bytes, g: nat)
    requires Shape(m) && pg in m.ents && EntryOk(m, m.ents[pg], pg.pid) && m.ents[pg].present
    requires off + |bs| <= m.pageSize && g < |m.owners|
    ensures At(m.pageSize, m.ents[pg].frame, off) + |bs| <= |m.ram|
    ensures var n := Poke(m, pg, At(m.pageSize, m.ents[pg].frame, off), bs);
            Shape(n) && FrameBytes(n, g) == if g == m.ents[pg].frame then Patch(FrameBytes(m, g), off, bs)
                                            else FrameBytes(m, g)
  {
    FrameInside(|m.owners|, m.pageSize, m.ents[pg].frame);
    PatchFrame(m.ram, |m.owners|, m.pageSize, m.ents[pg].frame, off, bs, g);
  }

  lemma PokePage(m: Memory, pg: Page, off: nat, bs: Bytes, q: Page)
    requires Inv(m) && pg in m.ents && m.ents[pg].present && off + |bs| <= m.pageSize && q in m.ents
    requires m.ents[pg].frame >= 0 && At(m.pageSize, m.ents[pg].frame, off) + |bs| <= |m.ram|
    ensures var n := Poke(m, pg, At(m.pageSize, m.ents[pg].frame, off), bs);
            && Shape(n) && EntriesOk(n) && CleanAt(n, q)
            && PageBytes(n, q) == if q == pg then Patch(PageBytes(m, pg), off, bs) else PageBytes(m, q)
  {
    hide Tables, OneHolder, AllHeld, SwapOwned, Queue, Stamps, FrameBytes, Patch;
    var n := Poke(m, pg, At(m.pageSize, m.ents[pg].frame, off), bs);
    PokeBytes(m, pg, off, bs, m.ents[pg].frame);
    if q != pg && m.ents[q].present {
      BlocksApart(m, q, pg);
      PokeBytes(m, pg, off, bs, m.ents[q].frame);
    }
    assert CleanAt(m, q);
  }

  lemma PokeInv(m: Memory, pg: Page, off: nat, bs: Bytes)
    requires Inv(m) && pg in m.ents && m.ents[pg].present && off + |bs| <= m.pageSize
    requires m.ents[pg].frame >= 0 && At(m.pageSize, m.ents[pg].frame, off) + |bs| <= |m.ram|
    ensures Inv(Poke(m, pg, At(m.pageSize, m.ents[pg].frame, off), bs))
  {
    hide Tables, OneHolder, AllHeld, SwapOwned, Queue, Stamps, PageBytes, CleanAt, Patch, At;
    var n := Poke(m, pg, At(m.pageSize, m.ents[pg].frame, off), bs);
    PlacementKept(m, n);
    PokeUntouched(m, n);
    forall q | q in m.ents ensures CleanAt(n, q) {
      PokePage(m, pg, off, bs, q);
    }
  }

  /** Writing inside the frame of a resident page and marking it dirty changes that
      page as its owner sees it, and nothing else. */
  lemma PokeKeeps(m: Memory, pg: Page, off: nat, bs: Bytes)
    requires Inv(m) && pg in m.ents && m.ents[pg].present && off + |bs| <= m.pageSize
    requires m.ents[pg].frame >= 0 && At(m.pageSize, m.ents[pg].frame, off) + |bs| <= |m.ram|
    ensures var n := Poke(m, pg, At(m.pageSize, m.ents[pg].frame, off), bs);
            Inv(n) && Contents(n) == Contents(m)[pg := Patch(PageBytes(m, pg), off, bs)]
  {
    hide Tables, OneHolder, AllHeld, SwapOwned, Queue, Stamps, Clean, PageBytes, Patch, At;
    var n := Poke(m, pg, At(m.pageSize, m.ents[pg].frame, off), bs);
    PokeInv(m, pg, off, bs);
    forall q | q in m.ents
      ensures PageBytes(n, q) == if q == pg then Patch(PageBytes(m, pg), off, bs) else PageBytes(m, q)
    {
      PokePage(m, pg, off, bs, q);
    }
  }

  lemma PokeUntouched(m: Memory, n: Memory)
    requires Queue(m) && Stamps(m) && n.policy == m.policy && n.touched == m.touched && n.clock == m.clock
    requires n.ents.Keys == m.ents.Keys
    requires forall q :: q in m.ents ==> n.ents[q].stamp == m.ents[q].stamp && n.ents[q].present == m.ents[q].present
    ensures Queue(n) && Stamps(n)
  {
    assert forall t, pg :: Stamped(n, t, pg) <==> Stamped(m, t, pg);
  }

  /** A 4-byte store inside a resident page writes through to that page alone. */
  lemma StoreInPage(m: Memory, pg: Page, off: nat, v: Word)
    requires Inv(m) && pg in m.ents && m.ents[pg].present && off + 4 <= m.pageSize
    requires EntryOk(m, m.ents[pg], pg.pid)
    ensures var r := Store(m, At(m.pageSize, m.ents[pg].frame, off), v);
            r.Ok? && Inv(r.value) && Contents(r.value) == Contents(m)[pg := Patch(PageBytes(m, pg), off, Le(v))]
            && r.value.count == m.count
  {
    hide Tables, Frames, SwapOwned, Queue, Stamps, Clean, PageBytes, Patch, Contents, Le;
    PokeBytes(m, pg, off, Le(v), m.ents[pg].frame);
    SplitAddress(m.pageSize, m.ents[pg].frame, off);
    PageAtHolder(m, pg);
    PokeKeeps(m, pg, off, Le(v));
    var n := Poke(m, pg, At(m.pageSize, m.ents[pg].frame, off), Le(v));
    TouchKeeps(n, pg);
    SameContents(n, Touch(n, pg));
  }

  /** A 4-byte load inside a resident page returns the owner's bytes and changes no page. */
  lemma LoadInPage(m: Memory, pg: Page, off: nat)
    requires Inv(m) && pg in m.ents && m.ents[pg].present && off + 4 <= m.pageSize
    requires EntryOk(m, m.ents[pg], pg.pid)
    ensures var r := Load(m, At(m.pageSize, m.ents[pg].frame, off));
            r.Ok? && Inv(r.value.0) && Contents(r.value.0) == Contents(m) && r.value.0.count == m.count
            && r.value.1 == FromLe(PageBytes(m, pg)[off..off + 4])
  {
    hide Tables, Frames, SwapOwned, Queue, Stamps, Clean, Contents, FromLe;
    FrameInside(|m.owners|, m.pageSize, m.ents[pg].frame);
    SplitAddress(m.pageSize, m.ents[pg].frame, off);
    PageAtHolder(m, pg);
    TouchKeeps(m, pg);
    SameContents(m, Touch(m, pg));
    RangeOfSlice(m.ram, m.pageSize, m.ents[pg].frame, off, 4);
  }
}
