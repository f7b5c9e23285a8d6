/** The filesystem process's side of swap, in place: the swap[] array and the block file
    (filesystem/src/filesystem.c). */
module SwapArea {
  import opened Words
  import opened SwapMap

  function TakenOf(swap: seq<int>): (r: seq<bool>)
    ensures |r| == |swap|
  {
    seq(|swap|, i requires 0 <= i < |swap| => swap[i] != -1)
  }

  class Filesystem {
    const swap: array<int>
    const blocks: array<Bytes>
    const base: nat       // tamanio_fat - 1
    const blockSize: nat  // tamanio_bloque

    ghost predicate Valid()
      reads this, swap, blocks
    {
      && blockSize > 0 && base + swap.Length <= blocks.Length
      && forall b :: 0 <= b < blocks.Length ==> |blocks[b]| == blockSize
    }

    function Taken(): seq<bool>
      reads swap
    {
      TakenOf(swap[..])
    }

    /** inicializar_swap over a block file with whatever it holds. */
    constructor (fatSize: nat, swapBlocks: nat, size: nat, file: array<Bytes>)
      requires fatSize > 0 && size > 0 && fatSize - 1 + swapBlocks <= file.Length
      requires forall b :: 0 <= b < file.Length ==> |file[b]| == size
      ensures Valid() && blocks == file && fresh(swap) && base == fatSize - 1 && blockSize == size
      ensures swap.Length == swapBlocks && forall b :: 0 <= b < swapBlocks ==> !Taken()[b]
    {
      base, blockSize, blocks := fatSize - 1, size, file;
      swap := new int[swapBlocks];
      new;
      for i := 0 to swapBlocks
        invariant forall b :: 0 <= b < i ==> swap[b] == -1
        invariant forall b :: 0 <= b < file.Length ==> file[b] == old(file[b])
      {
        swap[i] := -1;
      }
    }

    /** obtener_primer_bloque_libre_swap; None is the UINT32_MAX it returns when full. */
    method FirstFree() returns (r: Option<nat>)
      ensures r == if FreeIds(Taken(), 0) == [] then None else Some(FreeIds(Taken(), 0)[0])
    {
      for i := 0 to swap.Length
        invariant FreeIds(Taken(), 0) == FreeIds(Taken(), i)
      {
        if swap[i] == -1 {
          assert FreeIds(Taken(), i) == [i] + FreeIds(Taken(), i + 1);
          return Some(i);
        }
        assert FreeIds(Taken(), i) == [] + FreeIds(Taken(), i + 1) == FreeIds(Taken(), i + 1);
      }
      return None;
    }

    /** lista_bloques_swap_reservados; Crash where it would write outside swap[]. */
    method Reserve(wanted: int) returns (r: Outcome<seq<nat>>)
      requires Valid()
      modifies swap
      ensures Valid()
      ensures r.Crash? <==> SwapMap.Reserve(old(Taken()), wanted).Crash?
      ensures r.Ok? ==> SwapMap.Reserve(old(Taken()), wanted) == Ok((r.value, Taken()))
    {
      hide TakenOf, Mark, FreeIds;
      ghost var before := Taken();
      ghost var free := FreeIds(before, 0);
      var list: seq<nat> := [];
      MarkNone(before);
      while |list| < wanted
        invariant |list| <= |free| && list == free[..|list|] && (wanted <= 0 ==> list == [])
        invariant wanted > 0 ==> |list| <= wanted
        invariant Taken() == Mark(before, list, true)
      {
        FreeAfter(before, |list|);
        var b := FirstFree();
        if b.None? {
          return Crash;
        }
        FreeIdsAscend(Taken(), 0);
        assert b.value in FreeIds(Taken(), 0);
        MarkOne(before, list, b.value);
        TakenSet(swap[..], b.value, 1);
        ghost var was := swap[..];
        swap[b.value] := 1;
        assert swap[..] == was[b.value := 1];
        list := list + [b.value];
      }
      return Ok(list);
    }

    /** liberar_bloques_swap. */
    method Release(ids: seq<int>)
      requires Valid()
      modifies swap
      ensures Valid() && Taken() == SwapMap.Release(old(Taken()), ids)
    {
      for i := 0 to |ids|
        invariant forall b :: 0 <= b < swap.Length ==>
                    swap[b] == if b in ids[..i] then -1 else old(swap[b])
      {
        assert ids[..i + 1] == ids[..i] + [ids[i]];
        if 0 <= ids[i] < swap.Length {
          swap[ids[i]] := -1;
        }
      }
      assert ids[..|ids|] == ids;
    }

    /** leer_bloque_swap: the bytes it reads, whatever becomes of its buffer. */
    method ReadBlock(id: nat) returns (r: Bytes)
      requires Valid() && id < swap.Length
      ensures r == blocks[base + id]
    {
      r := blocks[id + base];
    }

    /** escribir_bloque_swap. */
    method WriteBlock(id: nat, data: Bytes)
      requires Valid() && id < swap.Length && |data| == blockSize
      modifies blocks
      ensures Valid() && blocks[..] == old(blocks[..])[base + id := data]
    {
      blocks[id + base] := data;
    }
  }

  lemma {:induction false} FreeIdsSuffix(a: seq<bool>, b: seq<bool>, i: nat)
    requires |a| == |b| && forall k :: i <= k < |a| ==> a[k] == b[k]
    ensures FreeIds(a, i) == FreeIds(b, i)
    decreases |a| - i
  {
    if i < |a| {
      FreeIdsSuffix(a, b, i + 1);
    }
  }

  lemma FreeIdsStep(taken: seq<bool>, i: nat)
    requires i < |taken|
    ensures FreeIds(taken, i) == if taken[i] then FreeIds(taken, i + 1) else [i] + FreeIds(taken, i + 1)
  {
  }

  lemma {:induction false} FreeAfterFrom(taken: seq<bool>, i: nat, n: nat)
    requires n <= |FreeIds(taken, i)|
    ensures FreeIds(Mark(taken, FreeIds(taken, i)[..n], true), i) == FreeIds(taken, i)[n..]
    decreases |taken| - i
  {
    var all := FreeIds(taken, i);
    var marked := Mark(taken, all[..n], true);
    if n == 0 {
      MarkNone(taken);
      assert all[..0] == [];
    } else if i < |taken| {
      FreeIdsStep(taken, i);
      FreeIdsStep(marked, i);
      hide FreeIds;
      if taken[i] {
        FreeAfterFrom(taken, i + 1, n);
      } else {
        var rest := FreeIds(taken, i + 1);
        assert all[..n] == [i] + rest[..n - 1] && all[n..] == rest[n - 1..];
        assert all[..n][0] == i;
        FreeAfterFrom(taken, i + 1, n - 1);
        FreeIdsSuffix(marked, Mark(taken, rest[..n - 1], true), i + 1);
      }
    }
  }

  /** What first fit finds once the first n free ids are taken. */
  lemma FreeAfter(taken: seq<bool>, n: nat)
    requires n <= |FreeIds(taken, 0)|
    ensures FreeIds(Mark(taken, FreeIds(taken, 0)[..n], true), 0) == FreeIds(taken, 0)[n..]
  {
    FreeAfterFrom(taken, 0, n);
  }

  lemma MarkNone(taken: seq<bool>)
    ensures Mark(taken, [], true) == taken
  {
  }

  lemma TakenSet(swap: seq<int>, i: nat, v: int)
    requires i < |swap|
    ensures TakenOf(swap[i := v]) == TakenOf(swap)[i := v != -1]
  {
  }

  lemma MarkOne(taken: seq<bool>, ids: seq<nat>, b: nat)
    requires b < |taken|
    ensures Mark(taken, ids + [b], true) == Mark(taken, ids, true)[b := true]
  {
  }
}
