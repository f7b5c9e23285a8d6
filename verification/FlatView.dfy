/** The memory a process believes it has: one private array of bytes. */
module FlatView {
  import opened Words
  import opened Paging

  /** The first k pages of process pid, one after the other. */
  function Pages(c: map<Page, Bytes>, P: nat, pid: nat, k: nat): (r: Bytes)
    requires forall i :: 0 <= i < k ==> Page(pid, i) in c && |c[Page(pid, i)]| == P
    ensures |r| == k * P
  {
    if k == 0 then []
    else
      assert (k - 1) * P + P == k * P;
      Pages(c, P, pid, k - 1) + c[Page(pid, k - 1)]
  }

  lemma ContentsCover(m: Memory, pid: nat)
    requires Inv(m) && pid in m.count
    ensures forall i :: 0 <= i < m.count[pid] ==>
              Page(pid, i) in Contents(m) && |Contents(m)[Page(pid, i)]| == m.pageSize
  {
    hide OneHolder, AllHeld, SwapOwned, Queue, Stamps, Clean, FrameBytes;
  }

  /** The flat array of process pid. */
  ghost function Flat(m: Memory, pid: nat): Bytes
    requires Inv(m) && pid in m.count
  {
    ContentsCover(m, pid);
    Pages(Contents(m), m.pageSize, pid, m.count[pid])
  }

  lemma FlatSize(m: Memory, pid: nat)
    requires Inv(m) && pid in m.count
    ensures |Flat(m, pid)| == m.count[pid] * m.pageSize
  {
    hide Inv, Contents;
  }

  lemma {:induction false} PagesSlice(c: map<Page, Bytes>, P: nat, pid: nat, k: nat, i: nat)
    requires forall j :: 0 <= j < k ==> Page(pid, j) in c && |c[Page(pid, j)]| == P
    requires i < k
    ensures i * P + P <= k * P && Slice(Pages(c, P, pid, k), P, i) == c[Page(pid, i)]
  {
    FrameInside(k, P, i);
    assert (k - 1) * P + P == k * P;
    if i < k - 1 {
      PagesSlice(c, P, pid, k - 1, i);
      assert Pages(c, P, pid, k)[i * P..i * P + P] == Pages(c, P, pid, k - 1)[i * P..i * P + P];
    }
  }

  /** An array of k pages is determined by its pages. */
  lemma {:induction false} SlicesDetermine(a: Bytes, b: Bytes, P: nat, k: nat)
    requires |a| == |b| == k * P
    requires forall i: nat :: i < k ==> i * P + P <= k * P && Slice(a, P, i) == Slice(b, P, i)
    ensures a == b
  {
    hide Slice;
    if k > 0 {
      LastSlice(a, P, k);
      LastSlice(b, P, k);
      var lo := (k - 1) * P;
      forall i: nat | i < k - 1 ensures i * P + P <= lo && Slice(a[..lo], P, i) == Slice(b[..lo], P, i) {
        FrameInside(k - 1, P, i);
        TakeSlice(a, P, lo, i);
        TakeSlice(b, P, lo, i);
      }
      SlicesDetermine(a[..lo], b[..lo], P, k - 1);
      FrameInside(k, P, k - 1);
      assert Slice(a, P, k - 1) == Slice(b, P, k - 1);
    } else {
      assert a == [] == b;
    }
  }

  lemma TakeSlice(a: Bytes, P: nat, lo: nat, i: nat)
    requires i * P + P <= lo <= |a|
    ensures Slice(a[..lo], P, i) == Slice(a, P, i)
  {
  }

  lemma LastSlice(a: Bytes, P: nat, k: nat)
    requires k > 0 && |a| == k * P
    ensures 0 <= (k - 1) * P && (k - 1) * P + P == |a|
    ensures a == a[..(k - 1) * P] + Slice(a, P, k - 1)
  {
    FrameInside(k, P, k - 1);
    assert (k - 1) * P + P == k * P;
  }

  /** Patching one page is patching the flat array at that page. */
  lemma PagesPatch(c: map<Page, Bytes>, P: nat, pid: nat, k: nat, i: nat, off: nat, bs: Bytes)
    requires forall j :: 0 <= j < k ==> Page(pid, j) in c && |c[Page(pid, j)]| == P
    requires i < k && off + |bs| <= P
    ensures i * P + off + |bs| <= k * P
    ensures Pages(c[Page(pid, i) := Patch(c[Page(pid, i)], off, bs)], P, pid, k)
         == Patch(Pages(c, P, pid, k), i * P + off, bs)
  {
    FrameInside(k, P, i);
    var d := c[Page(pid, i) := Patch(c[Page(pid, i)], off, bs)];
    var a, b := Pages(d, P, pid, k), Patch(Pages(c, P, pid, k), i * P + off, bs);
    forall j: nat | j < k ensures j * P + P <= k * P && Slice(a, P, j) == Slice(b, P, j) {
      PagesSlice(d, P, pid, k, j);
      PagesSlice(c, P, pid, k, j);
      PatchFrame(Pages(c, P, pid, k), k, P, i, off, bs, j);
    }
    SlicesDetermine(a, b, P, k);
  }

  lemma {:induction false} PagesOther(c: map<Page, Bytes>, P: nat, pid: nat, k: nat, pg: Page, v: Bytes)
    requires forall j :: 0 <= j < k ==> Page(pid, j) in c && |c[Page(pid, j)]| == P
    requires pg.pid != pid && |v| == P
    ensures Pages(c[pg := v], P, pid, k) == Pages(c, P, pid, k)
  {
    if k > 0 {
      PagesOther(c, P, pid, k - 1, pg, v);
    }
  }

  /** n is m after process pid wrote bs at logical address dl, and nothing else changed
      for anybody. */
  ghost predicate WroteThrough(m: Memory, n: Memory, pid: nat, dl: nat, bs: Bytes)
    requires Inv(m) && pid in m.count
  {
    && Inv(n) && n.count == m.count
    && dl + |bs| <= |Flat(m, pid)|
    && Flat(n, pid) == Patch(Flat(m, pid), dl, bs)
    && forall p :: p in m.count && p != pid ==> Flat(n, p) == Flat(m, p)
  }

  lemma PatchedPage(m: Memory, n: Memory, pg: Page, off: nat, bs: Bytes, dl: nat)
    requires Inv(m) && Inv(n) && n.count == m.count && n.pageSize == m.pageSize
    requires pg in m.ents && EntryOk(m, m.ents[pg], pg.pid) && off + |bs| <= m.pageSize
    requires Contents(n) == Contents(m)[pg := Patch(PageBytes(m, pg), off, bs)]
    requires dl == At(m.pageSize, pg.index, off)
    ensures pg.pid in m.count && WroteThrough(m, n, pg.pid, dl, bs)
  {
    hide Inv, PageBytes, Patch, Shape, Tables, EntriesOk;
    InvFacts(m, pg);
    var c, P := Contents(m), m.pageSize;
    ContentsCover(m, pg.pid);
    PagesPatch(c, P, pg.pid, m.count[pg.pid], pg.index, off, bs);
    forall p | p in m.count && p != pg.pid ensures Flat(n, p) == Flat(m, p) {
      ContentsCover(m, p);
      PagesOther(c, P, p, m.count[p], pg, Patch(PageBytes(m, pg), off, bs));
    }
  }

  /** Two adjacent writes are one write of the concatenation. */
  lemma WroteTwice(m: Memory, k: Memory, n: Memory, pid: nat, dl: nat, a: Bytes, b: Bytes)
    requires Inv(m) && Inv(k) && pid in m.count && pid in k.count
    requires WroteThrough(m, k, pid, dl, a) && WroteThrough(k, n, pid, dl + |a|, b)
    ensures WroteThrough(m, n, pid, dl, a + b)
  {
    hide Inv, Flat, Patch;
    PatchSplit(Flat(m, pid), dl, a, b);
  }

  lemma InvFacts(m: Memory, pg: Page)
    requires Inv(m) && pg in m.ents
    ensures Tables(m) && EntriesOk(m) && Shape(m) && EntryOk(m, m.ents[pg], pg.pid)
    ensures pg.pid in m.count && pg.index < m.count[pg.pid] && Contents(m)[pg] == PageBytes(m, pg)
  {
  }

  /** A range of the flat array that lies in one page is that range of the page. */
  lemma FlatRange(m: Memory, pg: Page, off: nat, k: nat)
    requires Inv(m) && pg in m.ents && off + k <= m.pageSize
    ensures pg.pid in m.count && Shape(m) && EntryOk(m, m.ents[pg], pg.pid)
    ensures At(m.pageSize, pg.index, off) + k <= |Flat(m, pg.pid)|
    ensures Flat(m, pg.pid)[At(m.pageSize, pg.index, off)..At(m.pageSize, pg.index, off) + k]
         == PageBytes(m, pg)[off..off + k]
  {
    hide Inv, PageBytes, Shape, Tables, EntriesOk, Pages;
    InvFacts(m, pg);
    ContentsCover(m, pg.pid);
    PagesSlice(Contents(m), m.pageSize, pg.pid, m.count[pg.pid], pg.index);
    RangeOfSlice(Flat(m, pg.pid), m.pageSize, pg.index, off, k);
  }

  lemma {:induction false} PagesAgree(c: map<Page, Bytes>, d: map<Page, Bytes>, P: nat, pid: nat, k: nat)
    requires forall j :: 0 <= j < k ==> Page(pid, j) in c && |c[Page(pid, j)]| == P
    requires forall j :: 0 <= j < k ==> Page(pid, j) in d && d[Page(pid, j)] == c[Page(pid, j)]
    ensures Pages(d, P, pid, k) == Pages(c, P, pid, k)
  {
    if k > 0 {
      PagesAgree(c, d, P, pid, k - 1);
    }
  }

  /** A process whose pages read the same sees the same flat array. */
  lemma FlatAgree(m: Memory, n: Memory, pid: nat)
    requires Inv(m) && Inv(n) && n.pageSize == m.pageSize
    requires pid in m.count && pid in n.count && n.count[pid] == m.count[pid]
    requires forall pg :: pg in m.ents && pg in n.ents ==> Contents(n)[pg] == Contents(m)[pg]
    ensures Flat(n, pid) == Flat(m, pid)
  {
    hide PageBytes, Frames, SwapOwned, Queue, Stamps, Clean;
    ContentsCover(m, pid);
    ContentsCover(n, pid);
    PagesAgree(Contents(m), Contents(n), m.pageSize, pid, m.count[pid]);
  }
}
