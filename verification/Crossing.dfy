/** memcpy of four bytes at a physical address does not stop at the end of the frame.
    This module says exactly when such a store is still a store to the process's own
    flat memory. */
module Crossing {
  import opened Words
  import opened Paging
  import opened Access
  import opened FlatView

  /** MOV_OUT of v at offset off of resident page pg is a write to its owner's flat
      memory, leaves every other process alone and keeps the invariant. */
  ghost predicate StoreRight(m: Memory, pg: Page, off: nat, v: Word)
    requires Inv(m) && pg in m.ents && m.ents[pg].present && m.ents[pg].frame >= 0
  {
    var r := Store(m, At(m.pageSize, m.ents[pg].frame, off), v);
    r.Ok? && pg.pid in m.count && WroteThrough(m, r.value, pg.pid, At(m.pageSize, pg.index, off), Le(v))
  }

  /** The frame after pg's holds pg's successor, already modified. */
  predicate NextFrameIsNextPageDirty(m: Memory, pg: Page)
    requires pg in m.ents
  {
    var next := Page(pg.pid, pg.index + 1);
    Holds(m, m.ents[pg].frame + 1, next) && m.ents[next].dirty
  }

  lemma InPageStoreRight(m: Memory, pg: Page, off: nat, v: Word)
    requires Inv(m) && pg in m.ents && m.ents[pg].present && off + 4 <= m.pageSize && m.ents[pg].frame >= 0
    ensures StoreRight(m, pg, off, v)
  {
    hide Inv, Le, Patch, Store, At, Shape, Tables, EntriesOk;
    InvFacts(m, pg);
    StoreInPage(m, pg, off, v);
    StoreKeepsShape(m, At(m.pageSize, m.ents[pg].frame, off), v);
    PatchedPage(m, Store(m, At(m.pageSize, m.ents[pg].frame, off), v).value, pg, off, Le(v),
                At(m.pageSize, pg.index, off));
  }

  /** Where a store that leaves the frame of pg ends up. */
  lemma CrossingStore(m: Memory, pg: Page, off: nat, v: Word)
    requires Inv(m) && pg in m.ents && m.ents[pg].present && EntryOk(m, m.ents[pg], pg.pid)
    requires off < m.pageSize < off + 4 && m.pageSize >= 4
    ensures var f, df := m.ents[pg].frame, At(m.pageSize, m.ents[pg].frame, off);
            && (f + 1 == |m.owners| ==> Store(m, df, v) == Crash)
            && (f + 1 < |m.owners| ==> df + 4 <= |m.ram| && Store(m, df, v) == Ok(Touch(Poke(m, pg, df, Le(v)), pg)))
  {
    hide Inv, Tables, Touch, PageAt, Le;
    InvShape(m);
    var f, P := m.ents[pg].frame, m.pageSize;
    assert f * P + P == (f + 1) * P;
    SplitAddress(P, f, off);
    PageAtHolder(m, pg);
    if f + 1 < |m.owners| {
      FrameInside(|m.owners|, P, f + 1);
    }
  }

  lemma NextPageStart(P: nat, i: nat, off: nat)
    requires off <= P
    ensures At(P, i, off) + (P - off) == At(P, i + 1, 0)
  {
    assert (i + 1) * P == i * P + P;
  }

  lemma PokeAcross(m: Memory, pg: Page, next: Page, off: nat, a: Bytes, b: Bytes, df: nat)
    requires pg in m.ents && next in m.ents && next != pg && m.ents[next].dirty
    requires df + |a + b| <= |m.ram|
    ensures Poke(m, pg, df, a + b) == Poke(Poke(m, pg, df, a), next, df + |a|, b)
  {
    PatchSplit(m.ram, df, a, b);
    assert m.ents[pg := m.ents[pg].(dirty := true)][next := m.ents[next].(dirty := true)]
        == m.ents[pg := m.ents[pg].(dirty := true)];
  }

  lemma CrossingPoke(m: Memory, pg: Page, off: nat, a: Bytes, b: Bytes)
    requires Inv(m) && pg in m.ents && m.ents[pg].present && EntryOk(m, m.ents[pg], pg.pid)
    requires NextFrameIsNextPageDirty(m, pg) && off + |a| == m.pageSize && |b| <= m.pageSize
    ensures var df := At(m.pageSize, m.ents[pg].frame, off);
            && df + |a + b| <= |m.ram| && pg.pid in m.count && Inv(Poke(m, pg, df, a + b))
            && WroteThrough(m, Poke(m, pg, df, a + b), pg.pid, At(m.pageSize, pg.index, off), a + b)
  {
    hide Inv, Patch, Shape, Tables, EntriesOk, PageBytes, At, WroteThrough;
    var P, f, next := m.pageSize, m.ents[pg].frame, Page(pg.pid, pg.index + 1);
    var df, dl := At(P, f, off), At(P, pg.index, off);
    InvFacts(m, pg);
    InvFacts(m, next);
    NextPageStart(P, f, off);
    NextPageStart(P, pg.index, off);
    PokeFits(m, pg, off, a);
    PokeKeeps(m, pg, off, a);
    var m1 := Poke(m, pg, df, a);
    PatchedPage(m, m1, pg, off, a, dl);
    InvFacts(m1, next);
    PokeFits(m1, next, 0, b);
    PokeKeeps(m1, next, 0, b);
    var m2 := Poke(m1, next, df + |a|, b);
    PatchedPage(m1, m2, next, 0, b, dl + |a|);
    WroteTwice(m, m1, m2, pg.pid, dl, a, b);
    PokeAcross(m, pg, next, off, a, b, df);
  }

  lemma PokeFits(m: Memory, pg: Page, off: nat, bs: Bytes)
    requires Shape(m) && pg in m.ents && EntryOk(m, m.ents[pg], pg.pid) && m.ents[pg].present
    requires off + |bs| <= m.pageSize
    ensures At(m.pageSize, m.ents[pg].frame, off) + |bs| <= |m.ram|
  {
    FrameInside(|m.owners|, m.pageSize, m.ents[pg].frame);
  }

  lemma CrossingRight(m: Memory, pg: Page, off: nat, v: Word)
    requires Inv(m) && pg in m.ents && m.ents[pg].present && m.ents[pg].frame >= 0
    requires off < m.pageSize < off + 4 && m.pageSize >= 4 && NextFrameIsNextPageDirty(m, pg)
    ensures StoreRight(m, pg, off, v)
  {
    hide Inv, Patch, Store, Le, Shape, Tables, EntriesOk, PageBytes, WroteThrough, At, Touch;
    var k := m.pageSize - off;
    var a, b := Le(v)[..k], Le(v)[k..];
    assert Le(v) == a + b;
    InvFacts(m, pg);
    InvFacts(m, Page(pg.pid, pg.index + 1));
    CrossingStore(m, pg, off, v);
    CrossingPoke(m, pg, off, a, b);
    var n := Poke(m, pg, At(m.pageSize, m.ents[pg].frame, off), Le(v));
    TouchKeeps(n, pg);
    SameContents(n, Touch(n, pg));
    TouchKeepsShape(n, pg);
    SameFlat(m, n, Touch(n, pg), pg.pid, At(m.pageSize, pg.index, off), Le(v));
  }

  lemma TouchKeepsShape(m: Memory, pg: Page)
    requires pg in m.ents
    ensures Touch(m, pg).count == m.count && Touch(m, pg).pageSize == m.pageSize
  {
  }

  lemma SameFlat(m: Memory, k: Memory, n: Memory, pid: nat, dl: nat, bs: Bytes)
    requires Inv(m) && Inv(k) && Inv(n) && pid in m.count && WroteThrough(m, k, pid, dl, bs)
    requires Contents(n) == Contents(k) && n.count == k.count && n.pageSize == k.pageSize
    ensures WroteThrough(m, n, pid, dl, bs)
  {
    hide Inv, Contents;
    assert forall p :: p in k.count ==> Flat(n, p) == Flat(k, p);
  }

  /** A store that leaves the frame of pg does not reach the frame of another page,
      except the frame right after it. */
  lemma CrossingMisses(m: Memory, pg: Page, off: nat, v: Word, q: Page)
    requires Inv(m) && pg in m.ents && m.ents[pg].present && EntryOk(m, m.ents[pg], pg.pid)
    requires off < m.pageSize < off + 4 && m.pageSize >= 4
    requires q in m.ents && q != pg && EntryOk(m, m.ents[q], q.pid) && !Holds(m, m.ents[pg].frame + 1, q)
    requires Store(m, At(m.pageSize, m.ents[pg].frame, off), v).Ok?
    requires Inv(Store(m, At(m.pageSize, m.ents[pg].frame, off), v).value)
    ensures var n := Store(m, At(m.pageSize, m.ents[pg].frame, off), v).value;
            q in n.ents && EntryOk(n, n.ents[q], q.pid) && PageBytes(n, q) == PageBytes(m, q)
  {
    hide Inv, Tables, EntriesOk, Le, Store, Patch, At, Shape, Touch, Poke;
    InvFacts(m, pg);
    CrossingStore(m, pg, off, v);
    OthersEntry(m, pg, At(m.pageSize, m.ents[pg].frame, off), Le(v), q);
    if m.ents[q].present {
      BlocksApart(m, q, pg);
      CrossingFrame(m, pg, off, v, m.ents[q].frame);
    }
  }

  lemma OthersEntry(m: Memory, pg: Page, df: nat, bs: Bytes, q: Page)
    requires pg in m.ents && q in m.ents && q != pg && df + |bs| <= |m.ram|
    ensures var n := Touch(Poke(m, pg, df, bs), pg);
            && q in n.ents && n.ents[q] == m.ents[q] && n.owners == m.owners && n.taken == m.taken
            && n.disk == m.disk && n.base == m.base && n.pageSize == m.pageSize
  {
  }

  lemma CrossingFrame(m: Memory, pg: Page, off: nat, v: Word, g: nat)
    requires Shape(m) && pg in m.ents && m.ents[pg].frame >= 0 && m.ents[pg].frame + 1 < |m.owners|
    requires off < m.pageSize < off + 4 && m.pageSize >= 4
    requires g < |m.owners| && g != m.ents[pg].frame && g != m.ents[pg].frame + 1
    requires At(m.pageSize, m.ents[pg].frame, off) + 4 <= |m.ram|
    ensures var n := Touch(Poke(m, pg, At(m.pageSize, m.ents[pg].frame, off), Le(v)), pg);
            Shape(n) && FrameBytes(n, g) == FrameBytes(m, g)
  {
    hide Le, Patch, At;
    PatchAcross(m.ram, |m.owners|, m.pageSize, m.ents[pg].frame, off, Le(v), g);
  }

  /** If the next frame does not hold pg's successor with its dirty bit set, some value
      stored across the boundary is lost, leaks or is forgotten at the next eviction. */
  lemma CrossingWrong(m: Memory, pg: Page, off: nat) returns (v: Word)
    requires Inv(m) && pg in m.ents && m.ents[pg].present && m.ents[pg].frame >= 0
    requires off < m.pageSize < off + 4 && m.pageSize >= 4 && !NextFrameIsNextPageDirty(m, pg)
    ensures !StoreRight(m, pg, off, v)
  {
    hide Inv, Patch, Store, Le, Shape, Tables, EntriesOk, PageBytes, At, WroteThrough, NextFrameIsNextPageDirty;
    var next := Page(pg.pid, pg.index + 1);
    InvFacts(m, pg);
    if next !in m.ents {
      v := 0;
      NoNextPage(m, pg, off, v);
    } else {
      InvFacts(m, next);
      var y := OtherByte(PageBytes(m, next)[0]);
      v := FromLe([y, y, y, y]);
      FromLeRoundTrip([y, y, y, y]);
      if StoreRight(m, pg, off, v) {
        var n := Store(m, At(m.pageSize, m.ents[pg].frame, off), v).value;
        StoreRightInv(m, pg, off, v);
        NextPageUnchanged(m, pg, off, v);
        NextPageByte(m, pg, off, n, [y, y, y, y], y);
      }
    }
  }

  lemma StoreRightInv(m: Memory, pg: Page, off: nat, v: Word)
    requires Inv(m) && pg in m.ents && m.ents[pg].present && m.ents[pg].frame >= 0 && StoreRight(m, pg, off, v)
    ensures Inv(Store(m, At(m.pageSize, m.ents[pg].frame, off), v).value)
  {
    hide Inv;
  }

  function OtherByte(b: Byte): (r: Byte)
    ensures r != b
  {
    if b == 0 then 1 else 0
  }

  lemma NoNextPage(m: Memory, pg: Page, off: nat, v: Word)
    requires Inv(m) && pg in m.ents && m.ents[pg].present && m.ents[pg].frame >= 0
    requires off < m.pageSize < off + 4 && Page(pg.pid, pg.index + 1) !in m.ents
    ensures !StoreRight(m, pg, off, v)
  {
    hide Store, Le, Patch, Frames, SwapOwned, Queue, Stamps, Clean, Contents;
    var pid := pg.pid;
    assert m.count[pid] == pg.index + 1;
    NextPageStart(m.pageSize, pg.index, off);
    FlatSize(m, pid);
  }

  /** A correct store would put y at the start of the successor's page. */
  lemma NextPageByte(m: Memory, pg: Page, off: nat, n: Memory, bs: Bytes, y: Byte)
    requires Inv(m) && pg in m.ents && pg.pid in m.count && Page(pg.pid, pg.index + 1) in m.ents
    requires off < m.pageSize < off + 4 && bs == [y, y, y, y]
    requires WroteThrough(m, n, pg.pid, At(m.pageSize, pg.index, off), bs)
    requires n.ents.Keys == m.ents.Keys && n.pageSize == m.pageSize
    ensures var next := Page(pg.pid, pg.index + 1);
            Shape(n) && EntryOk(n, n.ents[next], next.pid) && |PageBytes(n, next)| > 0 && PageBytes(n, next)[0] == y
  {
    hide Inv, Flat, EntryOk, Tables, EntriesOk, PageBytes, At;
    var next := Page(pg.pid, pg.index + 1);
    InvFacts(n, next);
    NextPageStart(m.pageSize, pg.index, off);
    FlatRange(n, next, 0, 1);
    var a := At(m.pageSize, pg.index + 1, 0);
    assert Flat(n, pg.pid)[a] == y;
    assert PageBytes(n, next)[0] == Flat(n, pg.pid)[a..a + 1][0];
  }

  /** What the store really leaves there. */
  lemma NextPageUnchanged(m: Memory, pg: Page, off: nat, v: Word)
    requires Inv(m) && pg in m.ents && m.ents[pg].present && EntryOk(m, m.ents[pg], pg.pid)
    requires off < m.pageSize < off + 4 && m.pageSize >= 4 && Page(pg.pid, pg.index + 1) in m.ents
    requires Store(m, At(m.pageSize, m.ents[pg].frame, off), v).Ok?
    requires Inv(Store(m, At(m.pageSize, m.ents[pg].frame, off), v).value) && !NextFrameIsNextPageDirty(m, pg)
    ensures var n, next := Store(m, At(m.pageSize, m.ents[pg].frame, off), v).value, Page(pg.pid, pg.index + 1);
            n.ents.Keys == m.ents.Keys && n.pageSize == m.pageSize && Shape(m) && EntryOk(m, m.ents[next], next.pid)
            && Shape(n) && EntryOk(n, n.ents[next], next.pid) && PageBytes(n, next) == PageBytes(m, next)
  {
    hide Inv, Store, Le, Tables, EntriesOk, At, Patch, FrameBytes;
    InvFacts(m, pg);
    var n, next := Store(m, At(m.pageSize, m.ents[pg].frame, off), v).value, Page(pg.pid, pg.index + 1);
    CrossingStore(m, pg, off, v);
    InvFacts(m, next);
    InvFacts(n, next);
    if Holds(m, m.ents[pg].frame + 1, next) {
      InvClean(m, next);
      InvClean(n, next);
    } else {
      CrossingMisses(m, pg, off, v, next);
    }
  }

  lemma InvClean(m: Memory, pg: Page)
    requires Inv(m) && pg in m.ents && Shape(m) && EntryOk(m, m.ents[pg], pg.pid)
    ensures CleanAt(m, pg)
  {
  }

  /** Exactly which stores are stores to flat memory: those that stay in the page, and
      those that cross into the frame of the next page of the same process while that
      page is already modified. */
  lemma StoreRightIff(m: Memory, pg: Page, off: nat)
    requires Inv(m) && pg in m.ents && m.ents[pg].present && m.ents[pg].frame >= 0
    requires off < m.pageSize && m.pageSize >= 4
    ensures (forall v: Word :: StoreRight(m, pg, off, v)) <==>
            off + 4 <= m.pageSize || NextFrameIsNextPageDirty(m, pg)
  {
    hide Inv, StoreRight, NextFrameIsNextPageDirty;
    if off + 4 <= m.pageSize {
      forall v: Word ensures StoreRight(m, pg, off, v) { InPageStoreRight(m, pg, off, v); }
    } else if NextFrameIsNextPageDirty(m, pg) {
      forall v: Word ensures StoreRight(m, pg, off, v) { CrossingRight(m, pg, off, v); }
    } else {
      var v := CrossingWrong(m, pg, off);
    }
  }

  // ----------------------------------------------------------------------- loads

  /** MOV_IN at offset off of resident page pg reads its owner's flat memory. */
  ghost predicate LoadRight(m: Memory, pg: Page, off: nat)
    requires Inv(m) && pg in m.ents && m.ents[pg].present && m.ents[pg].frame >= 0 && pg.pid in m.count
  {
    var r, dl := Load(m, At(m.pageSize, m.ents[pg].frame, off)), At(m.pageSize, pg.index, off);
    r.Ok? && dl + 4 <= |Flat(m, pg.pid)| && r.value.1 == FromLe(Flat(m, pg.pid)[dl..dl + 4])
  }

  /** The bytes after the frame of pg read as its owner's next page does. */
  ghost predicate NextFrameReadsAsNextPage(m: Memory, pg: Page, k: nat)
    requires Inv(m) && pg in m.ents && m.ents[pg].frame >= 0 && k <= m.pageSize
  {
    var next, g := Page(pg.pid, pg.index + 1), m.ents[pg].frame + 1;
    next in m.ents && g < |m.owners| && FrameBytes(m, g)[..k] == Contents(m)[next][..k]
  }

  lemma TwoRanges(s: Bytes, a: nat, b: nat, c: nat)
    requires a <= b <= c <= |s|
    ensures s[a..c] == s[a..b] + s[b..c]
  {
  }

  lemma LoadedBytes(m: Memory, pg: Page, off: nat)
    requires Shape(m) && pg in m.ents && 0 <= m.ents[pg].frame && m.ents[pg].frame + 1 < |m.owners|
    requires off < m.pageSize < off + 4 && m.pageSize >= 4
    ensures var f, df, k := m.ents[pg].frame, At(m.pageSize, m.ents[pg].frame, off), off + 4 - m.pageSize;
            df + 4 <= |m.ram| && m.ram[df..df + 4] == FrameBytes(m, f)[off..] + FrameBytes(m, f + 1)[..k]
  {
    var f, P, k := m.ents[pg].frame, m.pageSize, off + 4 - m.pageSize;
    FrameInside(|m.owners|, P, f);
    FrameInside(|m.owners|, P, f + 1);
    RangeOfSlice(m.ram, P, f, off, P - off);
    RangeOfSlice(m.ram, P, f + 1, 0, k);
    NextPageStart(P, f, off);
    hide At, Slice;
    TwoRanges(m.ram, At(P, f, off), At(P, f + 1, 0), At(P, f + 1, 0) + k);
  }

  lemma FlatBytes(m: Memory, pg: Page, off: nat)
    requires Inv(m) && pg in m.ents && Page(pg.pid, pg.index + 1) in m.ents && pg.pid in m.count
    requires off < m.pageSize < off + 4 && m.pageSize >= 4
    ensures var dl, next, k := At(m.pageSize, pg.index, off), Page(pg.pid, pg.index + 1), off + 4 - m.pageSize;
            && dl + 4 <= |Flat(m, pg.pid)| && |Contents(m)[pg]| == |Contents(m)[next]| == m.pageSize
            && Flat(m, pg.pid)[dl..dl + 4] == Contents(m)[pg][off..] + Contents(m)[next][..k]
  {
    hide Inv, PageBytes, Shape, Tables, EntriesOk, Flat, At, Contents;
    var P, next, k := m.pageSize, Page(pg.pid, pg.index + 1), off + 4 - m.pageSize;
    InvFacts(m, pg);
    InvFacts(m, next);
    FlatRange(m, pg, off, P - off);
    FlatRange(m, next, 0, k);
    NextPageStart(P, pg.index, off);
    TwoRanges(Flat(m, pg.pid), At(P, pg.index, off), At(P, pg.index + 1, 0), At(P, pg.index + 1, 0) + k);
  }

  lemma NoNextLoad(m: Memory, pg: Page, off: nat)
    requires Inv(m) && pg in m.ents && pg.pid in m.count && Page(pg.pid, pg.index + 1) !in m.ents
    requires off < m.pageSize < off + 4
    ensures At(m.pageSize, pg.index, off) + 4 > |Flat(m, pg.pid)|
  {
    hide Frames, SwapOwned, Queue, Stamps, Clean, Contents;
    assert m.count[pg.pid] == pg.index + 1;
    NextPageStart(m.pageSize, pg.index, off);
    FlatSize(m, pg.pid);
  }

  lemma CrossingLoad(m: Memory, pg: Page, off: nat)
    requires Inv(m) && pg in m.ents && m.ents[pg].present && EntryOk(m, m.ents[pg], pg.pid) && Shape(m) && Tables(m)
    requires off < m.pageSize < off + 4 && m.pageSize >= 4
    ensures var f, df := m.ents[pg].frame, At(m.pageSize, m.ents[pg].frame, off);
            && (f + 1 == |m.owners| ==> Load(m, df) == Crash)
            && (f + 1 < |m.owners| ==> df + 4 <= |m.ram| && Load(m, df) == Ok((Touch(m, pg), FromLe(m.ram[df..df + 4]))))
  {
    hide Tables, OneHolder, AllHeld, SwapOwned, Queue, Stamps, Clean, PageAt, FromLe;
    var f, P := m.ents[pg].frame, m.pageSize;
    assert f * P + P == (f + 1) * P;
    SplitAddress(P, f, off);
    PageAtHolder(m, pg);
    if f + 1 < |m.owners| {
      FrameInside(|m.owners|, P, f + 1);
    }
  }

  lemma SameWord(a: Bytes, b: Bytes)
    requires |a| == |b| == 4 && FromLe(a) == FromLe(b)
    ensures a == b
  {
    FromLeRoundTrip(a);
    FromLeRoundTrip(b);
  }

  /** A load is a load from flat memory exactly when it stays in the page or what follows the
      frame reads as the next page does: always so when the next frame holds that page. */
  lemma LoadRightIff(m: Memory, pg: Page, off: nat)
    requires Inv(m) && pg in m.ents && m.ents[pg].present && m.ents[pg].frame >= 0 && pg.pid in m.count
    requires off < m.pageSize && m.pageSize >= 4
    ensures LoadRight(m, pg, off) <==>
            off + 4 <= m.pageSize || NextFrameReadsAsNextPage(m, pg, off + 4 - m.pageSize)
    ensures Holds(m, m.ents[pg].frame + 1, Page(pg.pid, pg.index + 1)) && off + 4 > m.pageSize ==>
              NextFrameReadsAsNextPage(m, pg, off + 4 - m.pageSize)
  {
    hide Inv, PageBytes, Shape, Tables, EntriesOk, FrameBytes, Flat, At, Contents, Load, FromLe;
    InvFacts(m, pg);
    var next := Page(pg.pid, pg.index + 1);
    if off + 4 <= m.pageSize {
      LoadInPage(m, pg, off);
      FlatRange(m, pg, off, 4);
    } else {
      CrossingLoad(m, pg, off);
      if next !in m.ents {
        NoNextLoad(m, pg, off);
      } else {
        InvFacts(m, next);
        HeldNext(m, pg, off + 4 - m.pageSize);
        FlatBytes(m, pg, off);
        if m.ents[pg].frame + 1 < |m.owners| {
          LoadedBytes(m, pg, off);
          LoadCompares(m, pg, off);
        }
      }
    }
  }

  lemma HeldNext(m: Memory, pg: Page, k: nat)
    requires Inv(m) && pg in m.ents && m.ents[pg].frame >= 0 && Page(pg.pid, pg.index + 1) in m.ents && k <= m.pageSize
    ensures Holds(m, m.ents[pg].frame + 1, Page(pg.pid, pg.index + 1)) ==> NextFrameReadsAsNextPage(m, pg, k)
  {
    hide Inv, Shape, Tables, FrameBytes, Contents;
    InvFacts(m, Page(pg.pid, pg.index + 1));
  }

  /** The two words have their first part in common, so they agree when the second does. */
  lemma LoadCompares(m: Memory, pg: Page, off: nat)
    requires Inv(m) && Shape(m) && pg in m.ents && m.ents[pg].present && EntryOk(m, m.ents[pg], pg.pid) && pg.pid in m.count
    requires off < m.pageSize < off + 4 && m.pageSize >= 4 && m.ents[pg].frame + 1 < |m.owners|
    requires Page(pg.pid, pg.index + 1) in m.ents
    requires var f, df, k := m.ents[pg].frame, At(m.pageSize, m.ents[pg].frame, off), off + 4 - m.pageSize;
             df + 4 <= |m.ram| && m.ram[df..df + 4] == FrameBytes(m, f)[off..] + FrameBytes(m, f + 1)[..k]
    requires var dl, next, k := At(m.pageSize, pg.index, off), Page(pg.pid, pg.index + 1), off + 4 - m.pageSize;
             && dl + 4 <= |Flat(m, pg.pid)| && |Contents(m)[pg]| == |Contents(m)[next]| == m.pageSize
             && Flat(m, pg.pid)[dl..dl + 4] == Contents(m)[pg][off..] + Contents(m)[next][..k]
    ensures var df, dl := At(m.pageSize, m.ents[pg].frame, off), At(m.pageSize, pg.index, off);
            FromLe(m.ram[df..df + 4]) == FromLe(Flat(m, pg.pid)[dl..dl + 4])
            <==> NextFrameReadsAsNextPage(m, pg, off + 4 - m.pageSize)
  {
    hide Inv, Shape, Tables, EntriesOk, FrameBytes, Flat, At, FromLe;
    InvFacts(m, pg);
    var f, k, next := m.ents[pg].frame, off + 4 - m.pageSize, Page(pg.pid, pg.index + 1);
    var head, x, y := FrameBytes(m, f)[off..], FrameBytes(m, f + 1)[..k], Contents(m)[next][..k];
    if FromLe(head + x) == FromLe(head + y) {
      SameWord(head + x, head + y);
      assert x == (head + x)[|head|..] == y;
    }
  }
}
