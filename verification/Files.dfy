/** File data between user memory and the block file: F_WRITE and F_READ
    (filesystem/src/filesystem.c, realizar_f_write and realizar_f_read) over a given FAT. */
module Files {
  import opened Words
  import opened Paging
  import opened Access

  /** Follow n links of the FAT from block b; None when a link leaves the table. */
  function FatWalk(fat: seq<Word>, b: nat, n: nat): Option<nat>
    decreases n
  {
    if n == 0 then Some(b)
    else if b >= |fat| then None
    else FatWalk(fat, fat[b], n - 1)
  }

  /** leer_memoria_fs: a page of bytes from df, and the page that counts as used. */
  function ReadPage(m: Memory, df: nat): Outcome<(Memory, Bytes)>
    requires Shape(m) && Tables(m)
  {
    if df + m.pageSize > |m.ram| then Crash
    else
      FrameOfAddress(m, df);
      match PageAt(m, df / m.pageSize)
      case None => Crash
      case Some(pg) => Ok((Touch(m, pg), m.ram[df..df + m.pageSize]))
  }

  /** escribir_memoria_fs: a page of bytes into the frame that holds df. The call that
      would mark the page modified is commented out in the source. */
  function WritePage(m: Memory, df: nat, bs: Bytes): Outcome<Memory>
    requires Shape(m) && |bs| == m.pageSize
  {
    if df >= |m.ram| then Crash
    else
      FrameOfAddress(m, df);
      FrameInside(|m.owners|, m.pageSize, df / m.pageSize);
      Ok(m.(ram := Patch(m.ram, df / m.pageSize * m.pageSize, bs)))
  }

  /** realizar_f_write at file position pointer, from physical address df. */
  function FileWrite(m: Memory, fat: seq<Word>, first: nat, pointer: Word, df: nat): Outcome<Memory>
    requires Shape(m) && Tables(m)
  {
    match ReadPage(m, df)
    case Crash => Crash
    case Ok((n, bs)) =>
      match FatWalk(fat, first, pointer / m.pageSize)
      case None => Crash
      case Some(b) => if b < |m.disk| then Ok(n.(disk := n.disk[b := bs])) else Crash
  }

  /** realizar_f_read at file position pointer, into physical address df. */
  function FileRead(m: Memory, fat: seq<Word>, first: nat, pointer: Word, df: nat): Outcome<Memory>
    requires Shape(m)
  {
    match FatWalk(fat, first, pointer / m.pageSize)
    case None => Crash
    case Some(b) => if b < |m.disk| then WritePage(m, df, m.disk[b]) else Crash
  }

  // --------------------------------------------------------------------- writes

  /** Overwriting block b of the block file with bs hurts no process exactly when every
      page kept in that block has its bytes elsewhere or finds them unchanged. */
  ghost predicate BlockSpare(m: Memory, b: nat, bs: Bytes)
    requires b < |m.disk|
  {
    forall q :: q in m.ents && m.base + m.ents[q].block == b ==> m.ents[q].dirty || m.disk[b] == bs
  }

  lemma DiskWriteFrames(m: Memory, b: nat, bs: Bytes)
    requires Inv(m) && b < |m.disk| && |bs| == m.pageSize
    ensures var n := m.(disk := m.disk[b := bs]);
            Shape(n) && Tables(n) && Frames(n) && SwapOwned(n) && Queue(n) && Stamps(n)
  {
    var n := m.(disk := m.disk[b := bs]);
    assert Shape(n);
    hide Shape, Clean;
    PlacementOnly(m, n);
  }

  lemma PlacementOnly(m: Memory, n: Memory)
    requires Tables(m) && Frames(m) && SwapOwned(m) && Queue(m) && Stamps(m)
    requires n == m.(disk := n.disk, ram := n.ram)
    ensures Tables(n) && Frames(n) && SwapOwned(n) && Queue(n) && Stamps(n)
  {
    assert forall f, pg :: Holds(n, f, pg) <==> Holds(m, f, pg);
    assert forall b, pg :: Backs(n, b, pg) <==> Backs(m, b, pg);
    assert forall t, pg :: Stamped(n, t, pg) <==> Stamped(m, t, pg);
    assert EntriesOk(n) by {
      forall pg | pg in n.ents ensures EntryOk(n, n.ents[pg], pg.pid) {
        assert EntryOk(m, m.ents[pg], pg.pid);
      }
    }
    forall f | 0 <= f < |n.owners| && n.owners[f] != -1 ensures exists pg :: Holds(n, f, pg) {
      var pg :| Holds(m, f, pg);
    }
    forall b | 0 <= b < |n.taken| && n.taken[b] ensures exists pg :: Backs(n, b, pg) {
      var pg :| Backs(m, b, pg);
    }
  }

  lemma DiskWritePage(m: Memory, b: nat, bs: Bytes, q: Page)
    requires Inv(m) && b < |m.disk| && |bs| == m.pageSize && q in m.ents && EntryOk(m, m.ents[q], q.pid)
    ensures var n := m.(disk := m.disk[b := bs]);
            && Shape(n) && EntryOk(n, n.ents[q], q.pid)
            && (CleanAt(n, q) && PageBytes(n, q) == PageBytes(m, q) <==>
                m.base + m.ents[q].block != b || m.ents[q].dirty || m.disk[b] == bs)
  {
    hide Tables, OneHolder, AllHeld, SwapOwned, Queue, Stamps;
    var n := m.(disk := m.disk[b := bs]);
    assert CleanAt(m, q);
    if m.ents[q].present {
      assert FrameBytes(n, m.ents[q].frame) == FrameBytes(m, m.ents[q].frame);
    }
  }

  lemma DiskWriteKeeps(m: Memory, b: nat, bs: Bytes)
    requires Inv(m) && b < |m.disk| && |bs| == m.pageSize && BlockSpare(m, b, bs)
    ensures var n := m.(disk := m.disk[b := bs]); Inv(n) && Contents(n) == Contents(m)
  {
    hide Shape, Tables, OneHolder, AllHeld, SwapOwned, Queue, Stamps, PageBytes, CleanAt;
    var n := m.(disk := m.disk[b := bs]);
    DiskWriteFrames(m, b, bs);
    forall q | q in m.ents ensures CleanAt(n, q) && PageBytes(n, q) == PageBytes(m, q) {
      DiskWritePage(m, b, bs, q);
    }
  }

  lemma DiskWriteNeeds(m: Memory, b: nat, bs: Bytes)
    requires Inv(m) && b < |m.disk| && |bs| == m.pageSize
    requires Inv(m.(disk := m.disk[b := bs])) && Contents(m.(disk := m.disk[b := bs])) == Contents(m)
    ensures BlockSpare(m, b, bs)
  {
    hide Shape, Tables, OneHolder, AllHeld, SwapOwned, Queue, Stamps, PageBytes, CleanAt;
    var n := m.(disk := m.disk[b := bs]);
    forall q | q in m.ents && m.base + m.ents[q].block == b ensures m.ents[q].dirty || m.disk[b] == bs {
      assert Contents(n)[q] == Contents(m)[q];
      assert EntryOk(m, m.ents[q], q.pid);
      DiskWritePage(m, b, bs, q);
    }
  }

  /** The exact condition under which a block write keeps the invariant and every
      process's memory. File blocks below base always meet it; block base (tamanio_fat - 1),
      which the FAT scan can hand out, is swap block 0. */
  lemma DiskWriteSafeIff(m: Memory, b: nat, bs: Bytes)
    requires Inv(m) && b < |m.disk| && |bs| == m.pageSize
    ensures var n := m.(disk := m.disk[b := bs]);
            (Inv(n) && Contents(n) == Contents(m)) <==> BlockSpare(m, b, bs)
    ensures b < m.base ==> BlockSpare(m, b, bs)
  {
    var n := m.(disk := m.disk[b := bs]);
    hide Inv, Contents;
    if BlockSpare(m, b, bs) {
      DiskWriteKeeps(m, b, bs);
    }
    if Inv(n) && Contents(n) == Contents(m) {
      DiskWriteNeeds(m, b, bs);
    }
  }

  lemma ReadPageExact(m: Memory, pg: Page)
    requires Inv(m) && pg in m.ents && m.ents[pg].present && m.ents[pg].frame >= 0 && EntryOk(m, m.ents[pg], pg.pid)
    ensures ReadPage(m, At(m.pageSize, m.ents[pg].frame, 0)) == Ok((Touch(m, pg), PageBytes(m, pg)))
  {
    hide Tables, OneHolder, AllHeld, SwapOwned, Queue, Stamps, Clean, PageAt;
    FrameInside(|m.owners|, m.pageSize, m.ents[pg].frame);
    SplitAddress(m.pageSize, m.ents[pg].frame, 0);
    PageAtHolder(m, pg);
  }

  /** F_WRITE of a resident page to a file block outside the swap area stores that page's
      bytes in the block and changes no process's memory. */
  lemma FileWriteExact(m: Memory, fat: seq<Word>, first: nat, pointer: Word, pg: Page)
    requires Inv(m) && pg in m.ents && m.ents[pg].present && m.ents[pg].frame >= 0 && EntryOk(m, m.ents[pg], pg.pid)
    requires var b := FatWalk(fat, first, pointer / m.pageSize); b.Some? && b.value < m.base
    ensures var r := FileWrite(m, fat, first, pointer, At(m.pageSize, m.ents[pg].frame, 0));
            var b := FatWalk(fat, first, pointer / m.pageSize).value;
            && r.Ok? && Inv(r.value) && Contents(r.value) == Contents(m)
            && r.value.pageSize == m.pageSize && r.value.base == m.base && r.value.count == m.count
            && b < |r.value.disk| && r.value.disk[b] == PageBytes(m, pg)
  {
    hide Tables, Frames, SwapOwned, Queue, Stamps, Clean, PageBytes, FatWalk, ReadPage, Contents;
    var b := FatWalk(fat, first, pointer / m.pageSize).value;
    ReadPageExact(m, pg);
    TouchKeeps(m, pg);
    SameContents(m, Touch(m, pg));
    DiskWriteSafeIff(Touch(m, pg), b, PageBytes(m, pg));
  }

  /** Wherever the chain leads, the block gets the bytes that were read. */
  lemma FileWriteBlock(m: Memory, fat: seq<Word>, first: nat, pointer: Word, df: nat, t: Memory, bs: Bytes)
    requires Shape(m) && Tables(m) && ReadPage(m, df) == Ok((t, bs)) && FileWrite(m, fat, first, pointer, df).Ok?
    ensures var b := FatWalk(fat, first, pointer / m.pageSize);
            b.Some? && b.value < |m.disk| && |t.disk| == |m.disk|
            && FileWrite(m, fat, first, pointer, df).value == t.(disk := t.disk[b.value := bs])
  {
    hide Shape, Tables, FatWalk, PageAt;
  }

  // ---------------------------------------------------------------------- reads

  lemma WrittenFrame(m: Memory, f: nat, bs: Bytes, g: nat)
    requires Shape(m) && f < |m.owners| && g < |m.owners| && |bs| == m.pageSize
    ensures var r := WritePage(m, At(m.pageSize, f, 0), bs);
            && r.Ok? && Shape(r.value) && r.value == m.(ram := r.value.ram)
            && FrameBytes(r.value, g) == if g == f then bs else FrameBytes(m, g)
  {
    FrameInside(|m.owners|, m.pageSize, f);
    SplitAddress(m.pageSize, f, 0);
    PatchFrame(m.ram, |m.owners|, m.pageSize, f, 0, bs, g);
  }

  lemma WritePageFrame(m: Memory, pg: Page, bs: Bytes, q: Page)
    requires Inv(m) && pg in m.ents && m.ents[pg].present && m.ents[pg].frame >= 0 && |bs| == m.pageSize
    requires q in m.ents && EntryOk(m, m.ents[q], q.pid) && EntryOk(m, m.ents[pg], pg.pid)
    ensures var r := WritePage(m, At(m.pageSize, m.ents[pg].frame, 0), bs);
            && r.Ok? && Shape(r.value) && r.value == m.(ram := r.value.ram)
            && EntryOk(r.value, r.value.ents[q], q.pid)
            && PageBytes(r.value, q) == (if q == pg then bs else PageBytes(m, q))
            && (CleanAt(r.value, q) <==> q != pg || m.ents[pg].dirty || bs == m.disk[m.base + m.ents[pg].block])
  {
    hide Tables, OneHolder, AllHeld, SwapOwned, Queue, Stamps, WritePage, FrameBytes, At, Shape;
    InvShape(m);
    assert CleanAt(m, q);
    var f := m.ents[pg].frame;
    WrittenFrame(m, f, bs, f);
    if m.ents[q].present {
      WrittenFrame(m, f, bs, m.ents[q].frame);
      if q != pg {
        BlocksApart(m, q, pg);
      }
    }
  }

  lemma WritePageRest(m: Memory, pg: Page, bs: Bytes)
    requires Inv(m) && pg in m.ents && m.ents[pg].present && m.ents[pg].frame >= 0 && |bs| == m.pageSize
    requires EntryOk(m, m.ents[pg], pg.pid)
    ensures var r := WritePage(m, At(m.pageSize, m.ents[pg].frame, 0), bs);
            && r.Ok? && Shape(r.value) && Tables(r.value) && Frames(r.value) && SwapOwned(r.value)
            && Queue(r.value) && Stamps(r.value)
  {
    WritePageFrame(m, pg, bs, pg);
    hide Shape, Clean, WritePage, PageBytes;
    PlacementOnly(m, WritePage(m, At(m.pageSize, m.ents[pg].frame, 0), bs).value);
  }

  lemma WritePageAll(m: Memory, pg: Page, bs: Bytes, n: Memory)
    requires Inv(m) && pg in m.ents && m.ents[pg].present && m.ents[pg].frame >= 0 && |bs| == m.pageSize
    requires EntryOk(m, m.ents[pg], pg.pid) && Shape(n) && EntriesOk(n)
    requires WritePage(m, At(m.pageSize, m.ents[pg].frame, 0), bs) == Ok(n)
    ensures n.ents == m.ents
    ensures forall q :: q in m.ents ==>
              EntryOk(m, m.ents[q], q.pid) && PageBytes(n, q) == (if q == pg then bs else PageBytes(m, q))
    ensures Clean(n) <==> m.ents[pg].dirty || bs == m.disk[m.base + m.ents[pg].block]
  {
    hide Tables, OneHolder, AllHeld, SwapOwned, Queue, Stamps, PageBytes, CleanAt, WritePage;
    WritePageFrame(m, pg, bs, pg);
    forall q | q in m.ents
      ensures EntryOk(m, m.ents[q], q.pid) && PageBytes(n, q) == (if q == pg then bs else PageBytes(m, q))
      ensures CleanAt(n, q) <==> q != pg || m.ents[pg].dirty || bs == m.disk[m.base + m.ents[pg].block]
    {
      assert EntryOk(m, m.ents[q], q.pid);
      WritePageFrame(m, pg, bs, q);
    }
  }

  /** F_READ puts the bytes in the target page and nowhere else, but because it does not
      set the dirty bit it keeps the memory invariant exactly when the page was already
      modified or the bytes are those of its swap block. */
  lemma WritePageKeepsIff(m: Memory, pg: Page, bs: Bytes)
    requires Inv(m) && pg in m.ents && m.ents[pg].present && m.ents[pg].frame >= 0 && |bs| == m.pageSize
    requires EntryOk(m, m.ents[pg], pg.pid) && m.ents[pg].block < |m.taken|
    ensures var r := WritePage(m, At(m.pageSize, m.ents[pg].frame, 0), bs);
            && r.Ok?
            && (Inv(r.value) <==> m.ents[pg].dirty || bs == m.disk[m.base + m.ents[pg].block])
            && (Inv(r.value) ==> Contents(r.value) == Contents(m)[pg := bs])
  {
    hide Shape, Tables, EntriesOk, OneHolder, AllHeld, SwapOwned, Queue, Stamps, PageBytes, Clean, WritePage;
    WritePageRest(m, pg, bs);
    WritePageAll(m, pg, bs, WritePage(m, At(m.pageSize, m.ents[pg].frame, 0), bs).value);
  }

  /** Otherwise the data is lost: replacing the page and reading it back gives the old
      swap block, not what F_READ brought. */
  lemma ReadThenEvictedIsLost(m: Memory, pg: Page, bs: Bytes)
    requires Inv(m) && pg in m.ents && m.ents[pg].present && m.ents[pg].frame >= 0 && |bs| == m.pageSize
    requires EntryOk(m, m.ents[pg], pg.pid) && m.ents[pg].block < |m.taken|
    requires !m.ents[pg].dirty && bs != m.disk[m.base + m.ents[pg].block]
    ensures var r := WritePage(m, At(m.pageSize, m.ents[pg].frame, 0), bs);
            && r.Ok? && Shape(r.value) && pg in r.value.ents && EntryOk(r.value, r.value.ents[pg], pg.pid)
            && PageBytes(r.value, pg) == bs
            && var n := Evict(r.value, pg);
               Shape(n) && !n.ents[pg].present && n.disk[n.base + n.ents[pg].block] != bs
  {
    hide Tables, OneHolder, AllHeld, SwapOwned, Queue, Stamps, WritePage, PageBytes, AfterChoice;
    WritePageFrame(m, pg, bs, pg);
  }

  /** File round trip: what F_WRITE took from page pg, a later F_READ at the same file
      position puts into page q byte for byte, provided the FAT is the same and the block
      was not written in between. */
  lemma FileRoundTrip(m: Memory, fat: seq<Word>, first: nat, pointer: Word, pg: Page, n: Memory, b: nat,
                      later: Memory, q: Page)
    requires Inv(m) && pg in m.ents && m.ents[pg].present && m.ents[pg].frame >= 0 && EntryOk(m, m.ents[pg], pg.pid)
    requires FatWalk(fat, first, pointer / m.pageSize) == Some(b)
    requires FileWrite(m, fat, first, pointer, At(m.pageSize, m.ents[pg].frame, 0)) == Ok(n)
    requires Inv(later) && later.pageSize == m.pageSize
    requires b < |later.disk| && b < |n.disk| && later.disk[b] == n.disk[b]
    requires q in later.ents && later.ents[q].present && later.ents[q].frame >= 0
    requires EntryOk(later, later.ents[q], q.pid)
    ensures var r := FileRead(later, fat, first, pointer, At(m.pageSize, later.ents[q].frame, 0));
            && r.Ok? && Shape(r.value) && q in r.value.ents && EntryOk(r.value, r.value.ents[q], q.pid)
            && PageBytes(r.value, q) == PageBytes(m, pg)
  {
    hide Inv, PageBytes, FatWalk, FileWrite, WritePage, ReadPage, Contents, Shape, Tables, At;
    InvTables(m);
    InvShape(m);
    InvShape(later);
    ReadPageExact(m, pg);
    FileWriteBlock(m, fat, first, pointer, At(m.pageSize, m.ents[pg].frame, 0), Touch(m, pg), PageBytes(m, pg));
    BlockSize(later, b);
    WritePageFrame(later, q, later.disk[b], q);
  }

  lemma InvTables(m: Memory)
    requires Inv(m)
    ensures Tables(m)
  {
  }

  lemma BlockSize(m: Memory, b: nat)
    requires Shape(m) && b < |m.disk|
    ensures |m.disk[b]| == m.pageSize
  {
  }
}
