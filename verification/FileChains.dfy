/** Which block of a file a position is in, link by link, and what F_WRITE and F_READ do to the
    bytes of memory and of the block file. */
module FileChains {
  import opened Words
  import opened Paging
  import opened Access
  import opened Files
  import opened MemoryDetail

  /** c is the chain of the FAT from block first over n links. */
  ghost predicate Chain(fat: seq<Word>, first: nat, c: seq<nat>, n: nat) {
    && |c| == n + 1 && c[0] == first
    && forall i :: 0 <= i < n ==> c[i] < |fat| && c[i + 1] == fat[c[i]]
  }

  /** The chain leaves the table before n links. */
  ghost predicate LeavesTable(fat: seq<Word>, first: nat, n: nat) {
    exists c, i: nat :: i < n && Chain(fat, first, c, i) && c[i] >= |fat|
  }

  lemma {:induction false} WalkToChain(fat: seq<Word>, first: nat, n: nat) returns (c: seq<nat>)
    requires FatWalk(fat, first, n).Some?
    ensures Chain(fat, first, c, n) && c[n] == FatWalk(fat, first, n).value
    decreases n
  {
    if n == 0 {
      c := [first];
    } else {
      var rest := WalkToChain(fat, fat[first], n - 1);
      c := [first] + rest;
    }
  }

  lemma {:induction false} ChainToWalk(fat: seq<Word>, first: nat, c: seq<nat>, n: nat)
    requires Chain(fat, first, c, n)
    ensures FatWalk(fat, first, n) == Some(c[n])
    decreases n
  {
    if n > 0 {
      var rest := c[1..];
      assert Chain(fat, fat[first], rest, n - 1) by {
        forall i | 0 <= i < n - 1 ensures rest[i] < |fat| && rest[i + 1] == fat[rest[i]] {
          assert rest[i] == c[i + 1] && rest[i + 1] == c[i + 2];
        }
      }
      ChainToWalk(fat, fat[first], rest, n - 1);
    }
  }

  lemma {:induction false} LostWalk(fat: seq<Word>, first: nat, n: nat) returns (c: seq<nat>, i: nat)
    requires FatWalk(fat, first, n) == None
    ensures i < n && Chain(fat, first, c, i) && c[i] >= |fat|
    decreases n
  {
    if first >= |fat| {
      c, i := [first], 0;
    } else {
      var rest, k := LostWalk(fat, fat[first], n - 1);
      c, i := [first] + rest, k + 1;
    }
  }

  lemma {:induction false} LostChain(fat: seq<Word>, first: nat, n: nat, c: seq<nat>, i: nat)
    requires i < n && Chain(fat, first, c, i) && c[i] >= |fat|
    ensures FatWalk(fat, first, n) == None
    decreases n
  {
    if i > 0 {
      var rest := c[1..];
      assert Chain(fat, fat[first], rest, i - 1) by {
        forall j | 0 <= j < i - 1 ensures rest[j] < |fat| && rest[j + 1] == fat[rest[j]] {
          assert rest[j] == c[j + 1] && rest[j + 1] == c[j + 2];
        }
      }
      LostChain(fat, fat[first], n - 1, rest, i - 1);
    }
  }

  /** The walk finds the end of the chain, and nothing exactly when the chain leaves the table. */
  lemma WalkIff(fat: seq<Word>, first: nat, n: nat, b: nat)
    ensures FatWalk(fat, first, n) == Some(b) <==> exists c :: Chain(fat, first, c, n) && c[n] == b
    ensures FatWalk(fat, first, n) == None <==> LeavesTable(fat, first, n)
  {
    hide Chain, FatWalk;
    if FatWalk(fat, first, n).Some? {
      var c := WalkToChain(fat, first, n);
    }
    forall c | Chain(fat, first, c, n) ensures |c| > n && FatWalk(fat, first, n) == Some(c[n]) {
      ChainLength(fat, first, c, n);
      ChainToWalk(fat, first, c, n);
    }
    LostIff(fat, first, n);
  }

  lemma LostIff(fat: seq<Word>, first: nat, n: nat)
    ensures FatWalk(fat, first, n) == None <==> LeavesTable(fat, first, n)
  {
    hide FatWalk;
    if LeavesTable(fat, first, n) {
      var c, i: nat :| i < n && Chain(fat, first, c, i) && c[i] >= |fat|;
      LostChain(fat, first, n, c, i);
    } else if FatWalk(fat, first, n) == None {
      var c, i := LostWalk(fat, first, n);
    }
  }

  lemma ChainLength(fat: seq<Word>, first: nat, c: seq<nat>, n: nat)
    requires Chain(fat, first, c, n)
    ensures |c| == n + 1
  {
  }

  // ------------------------------------------------------------- bytes that move

  /** Position pointer of a file is in its block number n. */
  predicate InBlock(P: nat, pointer: Word, n: nat) {
    n * P <= pointer < n * P + P
  }

  lemma BlockNumber(P: nat, pointer: Word, n: nat)
    requires InBlock(P, pointer, n)
    ensures P > 0 && pointer / P == n
  {
    var off := pointer - n * P;
    SplitAddress(P, n, off);
  }

  /** F_WRITE works exactly when there is a page of bytes from the address on, the address is in
      a resident page and the block exists; then the block gets those bytes, the page counts as
      used, and no other block and no byte of memory changes. */
  lemma WriteMoves(m: Memory, fat: seq<Word>, first: nat, pointer: Word, df: nat, c: seq<nat>, n: nat)
    requires Inv(m) && Shape(m) && Tables(m) && Chain(fat, first, c, n) && InBlock(m.pageSize, pointer, n)
    ensures var r := FileWrite(m, fat, first, pointer, df);
            && (r.Ok? <==> c[n] < |m.disk| && df + m.pageSize <= |m.ram| && Occupied(m, df / m.pageSize))
            && (r.Ok? ==>
                  && |r.value.disk| == |m.disk| && r.value.ram == m.ram
                  && (exists pg :: pg in m.ents && UsedNow(m, r.value, pg, df / m.pageSize, m.ents[pg].dirty))
                  && r.value.disk[c[n]] == m.ram[df..df + m.pageSize]
                  && forall b :: 0 <= b < |m.disk| && b != c[n] ==> r.value.disk[b] == m.disk[b])
  {
    hide Inv, Tables, FatWalk, PageAt, Chain, Occupied;
    ChainLength(fat, first, c, n);
    ChainToWalk(fat, first, c, n);
    BlockNumber(m.pageSize, pointer, n);
    if df + m.pageSize <= |m.ram| {
      FrameOfAddress(m, df);
      HolderIs(m, df / m.pageSize);
      if FileWrite(m, fat, first, pointer, df).Ok? {
        var pg := PageAt(m, df / m.pageSize).value;
        assert UsedNow(m, FileWrite(m, fat, first, pointer, df).value, pg, df / m.pageSize, m.ents[pg].dirty);
      }
    }
  }

  /** F_READ works exactly when the block exists and the address is in memory; then the frame of
      the address holds the bytes of the block, and nothing else changes. */
  lemma ReadMoves(m: Memory, fat: seq<Word>, first: nat, pointer: Word, df: nat, c: seq<nat>, n: nat)
    requires Shape(m) && Chain(fat, first, c, n) && InBlock(m.pageSize, pointer, n)
    ensures var r := FileRead(m, fat, first, pointer, df);
            && (r.Ok? <==> c[n] < |m.disk| && df < |m.ram|)
            && (r.Ok? ==>
                  && r.value == m.(ram := r.value.ram) && |r.value.ram| == |m.ram| && |m.disk[c[n]]| == m.pageSize
                  && forall i :: 0 <= i < |m.ram| ==>
                       r.value.ram[i] == if i / m.pageSize == df / m.pageSize then m.disk[c[n]][i % m.pageSize] else m.ram[i])
  {
    hide Shape, FatWalk, Chain, WritePage;
    ChainLength(fat, first, c, n);
    ChainToWalk(fat, first, c, n);
    BlockNumber(m.pageSize, pointer, n);
    if c[n] < |m.disk| {
      BlockSize(m, c[n]);
      FramePatched(m, df, m.disk[c[n]]);
    }
  }

  lemma FramePatched(m: Memory, df: nat, bs: Bytes)
    requires Shape(m) && |bs| == m.pageSize && m.pageSize > 0
    ensures WritePage(m, df, bs).Ok? <==> df < |m.ram|
    ensures df < |m.ram| ==>
              var n := WritePage(m, df, bs).value;
              && n == m.(ram := n.ram) && |n.ram| == |m.ram|
              && forall i :: 0 <= i < |m.ram| ==>
                   n.ram[i] == if i / m.pageSize == df / m.pageSize then bs[i % m.pageSize] else m.ram[i]
  {
    var P := m.pageSize;
    if df < |m.ram| {
      FrameOfAddress(m, df);
      var f := df / P;
      FrameInside(|m.owners|, P, f);
      forall i | 0 <= i < |m.ram| ensures WritePage(m, df, bs).value.ram[i] == if i / P == f then bs[i % P] else m.ram[i] {
        JoinAddress(P, i);
        ByteOfFrame(P, i, f);
      }
    }
  }
}
