/** F_WRITE and F_READ as the filesystem process runs them, against the memory process
    (filesystem/src/filesystem.c, realizar_f_write and realizar_f_read). */
module FileProcess {
  import opened Words
  import opened Paging
  import opened Files
  import opened FileChains
  import opened MemoryProcess

  class FileServer {
    const fat: array<Word>
    const memoria: Memoria

    ghost predicate Apart()
      reads this, memoria, memoria.fs, memoria.fs.swap, memoria.fs.blocks
    {
      && memoria.Wired() && (fat as object) != memoria.fs.swap && (fat as object) != memoria.fs.blocks
      && (fat as object) != memoria.marcos && (fat as object) != memoria.ram
    }

    constructor (table: array<Word>, m: Memoria)
      requires m.Wired() && (table as object) != m.fs.swap && (table as object) != m.fs.blocks
      requires (table as object) != m.marcos && (table as object) != m.ram
      ensures Apart() && fat == table && memoria == m
    {
      fat, memoria := table, m;
    }

    /** The loop over posicion_en_fat; None where it would read past the table. */
    method Walk(first: nat, links: nat) returns (r: Option<nat>)
      ensures r == FatWalk(fat[..], first, links) && (r == None <==> LeavesTable(fat[..], first, links))
      ensures r.Some? ==> exists c :: Chain(fat[..], first, c, links) && c[links] == r.value
    {
      forall b: nat ensures FatWalk(fat[..], first, links) == Some(b) ==> exists c :: Chain(fat[..], first, c, links) && c[links] == b {
        WalkIff(fat[..], first, links, b);
      }
      WalkIff(fat[..], first, links, 0);
      hide LeavesTable, Chain;
      var block: nat := first;
      for i := 0 to links
        invariant FatWalk(fat[..], first, links) == FatWalk(fat[..], block, links - i)
      {
        if block >= fat.Length {
          return None;
        }
        block := fat[block];
      }
      return Some(block);
    }

    /** realizar_f_write. */
    method FWrite(first: nat, pointer: Word, df: nat) returns (ok: bool)
      requires Apart() && memoria.Valid()
      modifies memoria`clock, memoria`ents, memoria`touched, memoria.fs.blocks
      ensures ok <==> FileWrite(old(memoria.Abs()), fat[..], first, pointer, df).Ok?
      ensures ok ==> Apart() && FileWrite(old(memoria.Abs()), fat[..], first, pointer, df) == Ok(memoria.Abs())
    {
      hide Inv, ReadPage, FatWalk;
      InvShape(memoria.Abs());
      InvAll(memoria.Abs());
      var data := memoria.ReadForFs(df);
      if data.None? {
        return false;
      }
      var block := Walk(first, pointer / memoria.pageSize);
      if block.None? || block.value >= memoria.fs.blocks.Length {
        return false;
      }
      ReadSize(old(memoria.Abs()), df);
      memoria.fs.blocks[block.value] := data.value;
      return true;
    }

    /** realizar_f_read. */
    method FRead(first: nat, pointer: Word, df: nat) returns (ok: bool)
      requires Apart() && memoria.Valid()
      modifies memoria.ram
      ensures ok <==> FileRead(old(memoria.Abs()), fat[..], first, pointer, df).Ok?
      ensures ok ==> Apart() && FileRead(old(memoria.Abs()), fat[..], first, pointer, df) == Ok(memoria.Abs())
    {
      hide Inv, WritePage, FatWalk;
      InvAll(memoria.Abs());
      var block := Walk(first, pointer / memoria.pageSize);
      if block.None? || block.value >= memoria.fs.blocks.Length {
        return false;
      }
      var data := memoria.fs.blocks[block.value];
      ok := memoria.WriteForFs(df, data);
    }
  }

  lemma ReadSize(m: Memory, df: nat)
    requires Shape(m) && Tables(m) && ReadPage(m, df).Ok?
    ensures |ReadPage(m, df).value.1| == m.pageSize
  {
  }
}
