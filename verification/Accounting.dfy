/** Conservation of frames and swap blocks. */
module Accounting {
  import opened Paging

  ghost function FreeFrames(m: Memory): set<int> {
    set f | 0 <= f < |m.owners| && m.owners[f] == -1
  }

  ghost function FreeBlocks(m: Memory): set<int> {
    set b | 0 <= b < |m.taken| && !m.taken[b]
  }

  ghost function ResidentPages(m: Memory): set<Page> {
    set pg | pg in m.ents && m.ents[pg].present
  }

  /** The first n pages of a process. */
  ghost function PagesOf(pid: nat, n: nat): (s: set<Page>)
    ensures |s| == n && forall pg :: pg in s <==> pg.pid == pid && pg.index < n
  {
    if n == 0 then {} else PagesOf(pid, n - 1) + {Page(pid, n - 1)}
  }

  /** An injective labelling of a set has as many tags as elements. */
  lemma {:induction false} Labels(s: set<Page>, tag: map<Page, int>, tags: set<int>)
    requires forall p :: p in s ==> p in tag && tag[p] in tags
    requires forall l :: l in tags ==> exists p :: p in s && tag[p] == l
    requires forall p, q :: p in s && q in s && tag[p] == tag[q] ==> p == q
    ensures |s| == |tags|
  {
    if s != {} {
      var p :| p in s;
      var rest, others := s - {p}, tags - {tag[p]};
      forall l | l in others ensures exists q :: q in rest && tag[q] == l {
        var q :| q in s && tag[q] == l;
        assert q in rest;
      }
      Labels(rest, tag, others);
      assert |s| == |rest| + 1 && |tags| == |others| + 1;
    } else {
      assert forall l :: l !in tags;
      assert tags == {};
    }
  }

  ghost function Below(n: nat): (s: set<int>)
    ensures forall i :: i in s <==> 0 <= i < n
    ensures |s| == n
  {
    if n == 0 then {} else Below(n - 1) + {n - 1}
  }

  ghost function UsedFrames(m: Memory): set<int> {
    set f | 0 <= f < |m.owners| && m.owners[f] != -1
  }

  ghost function UsedBlocks(m: Memory): set<int> {
    set b | 0 <= b < |m.taken| && m.taken[b]
  }

  lemma ResidentFillFrames(m: Memory)
    requires Frames(m)
    ensures |ResidentPages(m)| == |UsedFrames(m)|
  {
    var tag := map pg | pg in m.ents :: m.ents[pg].frame;
    forall p | p in ResidentPages(m) ensures p in tag && tag[p] in UsedFrames(m) {
      assert EntryOk(m, m.ents[p], p.pid);
    }
    forall l | l in UsedFrames(m) ensures exists p :: p in ResidentPages(m) && tag[p] == l {
      var p :| Holds(m, l, p);
      assert p in ResidentPages(m) && tag[p] == l;
    }
    forall p, q | p in ResidentPages(m) && q in ResidentPages(m) && tag[p] == tag[q] ensures p == q {
      assert Holds(m, tag[p], p) && Holds(m, tag[p], q);
    }
    hide *;
    Labels(ResidentPages(m), tag, UsedFrames(m));
  }

  lemma PagesFillBlocks(m: Memory)
    requires EntriesOk(m) && SwapOwned(m)
    ensures |m.ents| == |UsedBlocks(m)|
  {
    var tag: map<Page, int> := map pg | pg in m.ents :: m.ents[pg].block as int;
    forall p | p in m.ents.Keys ensures p in tag && tag[p] in UsedBlocks(m) {
      assert EntryOk(m, m.ents[p], p.pid);
    }
    forall l | l in UsedBlocks(m) ensures exists p :: p in m.ents.Keys && tag[p] == l {
      var p :| Backs(m, l, p);
      assert p in m.ents.Keys && tag[p] == l;
    }
    forall p, q | p in m.ents.Keys && q in m.ents.Keys && tag[p] == tag[q] ensures p == q {
      assert Backs(m, tag[p], p) && Backs(m, tag[p], q);
    }
    hide *;
    Labels(m.ents.Keys, tag, UsedBlocks(m));
  }

  /** Free frames plus resident pages are all the frames. */
  lemma FramesAccounted(m: Memory)
    requires Inv(m)
    ensures |FreeFrames(m)| + |ResidentPages(m)| == |m.owners|
  {
    ResidentFillFrames(m);
    hide Inv;
    assert Below(|m.owners|) == UsedFrames(m) + FreeFrames(m);
  }

  /** Free blocks plus pages of live processes are all the swap blocks. */
  lemma BlocksAccounted(m: Memory)
    requires Inv(m)
    ensures |FreeBlocks(m)| + |m.ents| == |m.taken|
  {
    PagesFillBlocks(m);
    hide Inv;
    assert Below(|m.taken|) == UsedBlocks(m) + FreeBlocks(m);
  }

  /** With no process left there is nothing left: no frame, block or list entry leaks. */
  lemma NothingLeaks(m: Memory)
    requires Inv(m) && m.count == map[]
    ensures m.ents == map[] && m.touched == [] && m.order == []
    ensures forall f :: 0 <= f < |m.owners| ==> m.owners[f] == -1
    ensures forall b :: 0 <= b < |m.taken| ==> !m.taken[b]
  {
    hide Stamps, Clean, Shape, OneHolder;
    assert forall pg :: pg !in m.ents;
    assert forall f, pg :: !Holds(m, f, pg);
    assert forall b, pg :: !Backs(m, b, pg);
    HasElement(m.touched);
    HasElement(m.order);
  }

  lemma HasElement<T>(s: seq<T>)
    ensures s == [] || exists x :: x in s
  {
    if s != [] {
      assert s[0] in s;
    }
  }
}
