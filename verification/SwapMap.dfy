/** The swap-block allocator of the filesystem process
    (filesystem/src/filesystem.c: inicializar_swap, obtener_primer_bloque_libre_swap,
    lista_bloques_swap_reservados, liberar_bloques_swap). */
module SwapMap {
  import opened Words

  /** The free ids from position i on, in increasing order. */
  function FreeIds(taken: seq<bool>, i: nat): (ids: seq<nat>)
    ensures |ids| <= if i <= |taken| then |taken| - i else 0
    decreases |taken| - i
  {
    if i >= |taken| then []
    else (if taken[i] then [] else [i]) + FreeIds(taken, i + 1)
  }

  function Mark(taken: seq<bool>, ids: seq<int>, value: bool): (r: seq<bool>)
    ensures |r| == |taken|
  {
    seq(|taken|, b requires 0 <= b < |taken| => if b in ids then value else taken[b])
  }

  /** INICIO_SWAP: n blocks, first fit; Crash where the code writes swap[UINT32_MAX]. */
  function Reserve(taken: seq<bool>, n: int): Outcome<(seq<nat>, seq<bool>)> {
    var free := FreeIds(taken, 0);
    if n > |free| then Crash
    else
      var ids := if n <= 0 then [] else free[..n];
      Ok((ids, Mark(taken, ids, true)))
  }

  /** SWAP_A_LIBERAR: ids outside the area are ignored. */
  function Release(taken: seq<bool>, ids: seq<int>): seq<bool> {
    Mark(taken, ids, false)
  }

  predicate Increasing(ids: seq<nat>) {
    forall i, j :: 0 <= i < j < |ids| ==> ids[i] < ids[j]
  }

  lemma {:induction false} FreeIdsAscend(taken: seq<bool>, i: nat)
    ensures Increasing(FreeIds(taken, i))
    ensures forall b :: b in FreeIds(taken, i) ==> i <= b < |taken| && !taken[b]
    decreases |taken| - i
  {
    if i < |taken| {
      FreeIdsAscend(taken, i + 1);
      var all, rest := FreeIds(taken, i), FreeIds(taken, i + 1);
      assert all == if taken[i] then rest else [i] + rest;
      hide FreeIds;
      if !taken[i] {
        Prepend(i, rest);
      }
    }
  }

  lemma Prepend(i: nat, rest: seq<nat>)
    requires Increasing(rest) && forall b :: b in rest ==> i < b
    ensures Increasing([i] + rest)
  {
    var all := [i] + rest;
    assert forall k :: 1 <= k < |all| ==> all[k] == rest[k - 1] && rest[k - 1] in rest;
  }

  lemma {:induction false} FreeIdsComplete(taken: seq<bool>, i: nat, b: nat)
    requires i <= b < |taken| && !taken[b]
    ensures b in FreeIds(taken, i)
    decreases |taken| - i
  {
    var rest := FreeIds(taken, i + 1);
    assert FreeIds(taken, i) == if taken[i] then rest else [i] + rest;
    if b == i {
      assert FreeIds(taken, i)[0] == b;
    } else {
      FreeIdsComplete(taken, i + 1, b);
    }
  }

  /** Reserving with enough free blocks hands out exactly the n smallest free ids in
      increasing order and takes exactly those. */
  lemma ReserveExact(taken: seq<bool>, n: nat)
    ensures Reserve(taken, n).Ok? <==> n <= |FreeIds(taken, 0)|
    ensures var r := Reserve(taken, n);
            r.Ok? ==>
              && |r.value.0| == n && Increasing(r.value.0) && |r.value.1| == |taken|
              && (forall k :: 0 <= k < n ==> r.value.0[k] < |taken| && !taken[r.value.0[k]])
              && (forall k, c :: 0 <= k < n && 0 <= c < |taken| && !taken[c] ==>
                    c in r.value.0 || r.value.0[k] < c)
              && (forall b :: 0 <= b < |taken| ==> r.value.1[b] == (taken[b] || b in r.value.0))
  {
    hide FreeIds;
    var free := FreeIds(taken, 0);
    FreeIdsAscend(taken, 0);
    if n <= |free| {
      var ids := free[..n];
      assert forall k :: 0 <= k < n ==> ids[k] in free;
      forall k, c | 0 <= k < n && 0 <= c < |taken| && !taken[c] ensures c in ids || ids[k] < c {
        FreeIdsComplete(taken, 0, c);
        var j :| 0 <= j < |free| && free[j] == c;
        if j < n {
          assert ids[j] == c;
        }
      }
    }
  }

  /** Freeing what was reserved gives the previous map back. */
  lemma ReleaseUndoesReserve(taken: seq<bool>, n: nat)
    requires Reserve(taken, n).Ok?
    ensures var (ids, after) := Reserve(taken, n).value; Release(after, ids) == taken
  {
    hide FreeIds;
    ReserveExact(taken, n);
    var (ids, after) := Reserve(taken, n).value;
    assert forall b :: b in ids ==> 0 <= b < |taken| && !taken[b];
    forall b | 0 <= b < |taken| ensures Release(after, ids)[b] == taken[b] {}
  }

  lemma {:induction false} FreeIdsCount(taken: seq<bool>, i: nat)
    requires i <= |taken|
    ensures |FreeIds(taken, i)| == |set b: nat | i <= b < |taken| && !taken[b]|
    decreases |taken| - i
  {
    var s := set b: nat | i <= b < |taken| && !taken[b];
    if i < |taken| {
      FreeIdsCount(taken, i + 1);
      var t := set b: nat | i + 1 <= b < |taken| && !taken[b];
      assert s == if taken[i] then t else {i} + t;
    } else {
      assert s == {};
    }
  }
}
