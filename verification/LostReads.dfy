/** What becomes of a page that F_READ filled without marking it modified: when it is
    replaced, memory is exactly as if the read had never happened. */
module LostReads {
  import opened Words
  import opened Paging
  import opened Files

  // ---------------------------------------- the victim does not depend on the bytes

  lemma {:induction false} ResidentOfSame(m: Memory, n: Memory, pid: nat, i: nat)
    requires n == m.(ram := n.ram) && pid in m.count
    requires forall k :: 0 <= k < m.count[pid] ==> Page(pid, k) in m.ents
    ensures ResidentOf(n, pid, i) == ResidentOf(m, pid, i)
    decreases m.count[pid] - i
  {
    if i < m.count[pid] {
      ResidentOfSame(m, n, pid, i + 1);
    }
  }

  lemma {:induction false} ResidentSame(m: Memory, n: Memory, pids: seq<nat>)
    requires n == m.(ram := n.ram) && Tables(m) && Tables(n) && forall pid :: pid in pids ==> pid in m.count
    ensures Resident(n, pids) == Resident(m, pids)
  {
    if pids != [] {
      ResidentOfSame(m, n, pids[0], 0);
      ResidentSame(m, n, pids[1..]);
    }
  }

  lemma {:induction false} MinStampSame(m: Memory, n: Memory, pages: seq<Page>)
    requires n == m.(ram := n.ram) && forall k :: 0 <= k < |pages| ==> pages[k] in m.ents
    ensures MinStamp(n, pages) == MinStamp(m, pages)
  {
    if pages != [] {
      MinStampSame(m, n, pages[..|pages| - 1]);
    }
  }

  lemma VictimSame(m: Memory, n: Memory)
    requires n == m.(ram := n.ram) && Tables(m) && Tables(n)
    ensures Victim(n) == Victim(m)
  {
    hide Distinct, Resident, MinStamp;
    if m.policy.Lru? {
      AllResidentAreEntries(m);
      ResidentSame(m, n, m.order);
      MinStampSame(m, n, Resident(m, m.order));
    }
  }

  // ------------------------------------------------------------------ the main result

  lemma PatchTwice(s: Bytes, at: nat, a: Bytes, b: Bytes)
    requires at + |a| <= |s| && |a| == |b|
    ensures Patch(Patch(s, at, a), at, b) == Patch(s, at, b)
  {
  }

  /** Replacing a clean page v by q overwrites its frame, whatever was in it. */
  lemma ReplaceForgets(m: Memory, v: Page, bs: Bytes, q: Page)
    requires Inv(m) && v in m.ents && m.ents[v].present && m.ents[v].frame >= 0 && !m.ents[v].dirty && |bs| == m.pageSize
    requires EntryOk(m, m.ents[v], v.pid) && q in m.ents && q != v && m.ents[q].block < |m.taken|
    requires WritePage(m, At(m.pageSize, m.ents[v].frame, 0), bs).Ok?
    ensures var n := WritePage(m, At(m.pageSize, m.ents[v].frame, 0), bs).value;
            && Shape(n) && n.ents == m.ents && EntryOk(n, n.ents[v], v.pid) && |n.taken| == |m.taken|
            && Replace(n, v, q) == Replace(m, v, q)
  {
    hide Tables, OneHolder, AllHeld, SwapOwned, Queue, Stamps, Clean, Patch;
    var f, P := m.ents[v].frame, m.pageSize;
    FrameInside(|m.owners|, P, f);
    SplitAddress(P, f, 0);
    PatchTwice(m.ram, f * P, bs, m.disk[m.base + m.ents[q].block]);
  }

  /** F_READ into a page whose dirty bit is 0, and then a page fault for which the policy
      chooses that page: the memory is what it would be without the F_READ. */
  lemma ReadForgotten(m: Memory, v: Page, bs: Bytes, q: Page)
    requires Inv(m) && v in m.ents && m.ents[v].present && m.ents[v].frame >= 0 && !m.ents[v].dirty && |bs| == m.pageSize
    requires FirstFree(m.owners) == |m.owners| && Victim(m) == Some(v) && q in m.ents && !m.ents[q].present
    requires EntryOk(m, m.ents[v], v.pid)
    ensures var r := WritePage(m, At(m.pageSize, m.ents[v].frame, 0), bs);
            && r.Ok? && Placed(r.value) && Service(r.value, q) == ServeFault(m, q) && ServeFault(m, q).Ok?
            && PageBytes(r.value, v) == bs
  {
    hide Inv, Shape, Tables, EntriesOk, OneHolder, AllHeld, SwapOwned, Queue, Stamps, Clean, WritePage, Victim, Replace,
         FirstFree, PageBytes;
    InvShape(m);
    InvParts(m);
    OneEntryOk(m, q);
    WritePageRest(m, v, bs);
    WritePageFrame(m, v, bs, v);
    var n := WritePage(m, At(m.pageSize, m.ents[v].frame, 0), bs).value;
    VictimSame(m, n);
    ReplaceForgets(m, v, bs, q);
  }

  lemma InvParts(m: Memory)
    requires Inv(m)
    ensures Shape(m) && Tables(m) && EntriesOk(m) && Placed(m)
  {
  }

  /** So the data is gone: v is out of memory and reads as its swap block did before, which is
      what the read brought only if it brought nothing new. */
  lemma ReadLostIff(m: Memory, v: Page, bs: Bytes, q: Page)
    requires Inv(m) && v in m.ents && m.ents[v].present && m.ents[v].frame >= 0 && !m.ents[v].dirty && |bs| == m.pageSize
    requires FirstFree(m.owners) == |m.owners| && Victim(m) == Some(v) && q in m.ents && !m.ents[q].present
    requires EntryOk(m, m.ents[v], v.pid) && m.ents[v].block < |m.taken|
    ensures var r := WritePage(m, At(m.pageSize, m.ents[v].frame, 0), bs);
            && r.Ok? && Placed(r.value) && Service(r.value, q).Ok?
            && var n := Service(r.value, q).value;
               Inv(n) && v in n.ents && !n.ents[v].present
               && (Contents(n)[v] == bs <==> bs == m.disk[m.base + m.ents[v].block])
  {
    hide Inv, Shape, Tables, EntriesOk, OneHolder, AllHeld, SwapOwned, Queue, Stamps, Clean, WritePage, Victim, Service,
         FirstFree, PageBytes, ServeFault, Contents, CleanAt;
    ReadForgotten(m, v, bs, q);
    ServeFaultKeeps(m, q);
    CleanContents(m, v);
    TakenOut(m, v, q);
  }

  lemma CleanContents(m: Memory, v: Page)
    requires Inv(m) && v in m.ents && m.ents[v].present && !m.ents[v].dirty && m.ents[v].block < |m.taken|
    ensures m.base + m.ents[v].block < |m.disk| && v in Contents(m) && Contents(m)[v] == m.disk[m.base + m.ents[v].block]
  {
    hide OneHolder, AllHeld, SwapOwned, Queue, Stamps, FrameBytes;
    assert CleanAt(m, v);
  }

  lemma TakenOut(m: Memory, v: Page, q: Page)
    requires Inv(m) && FirstFree(m.owners) == |m.owners| && Victim(m) == Some(v) && q in m.ents && v in m.ents
    requires !m.ents[q].present && m.ents[v].present && ServeFault(m, q).Ok?
    ensures v in ServeFault(m, q).value.ents && !ServeFault(m, q).value.ents[v].present
  {
    hide Shape, Tables, Frames, SwapOwned, Queue, Stamps, Clean, FirstFree, Victim, Patch;
    VictimResident(m, v);
  }
}
