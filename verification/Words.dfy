/** Bytes, 32-bit words and their little-endian memory image, as memcpy of a
    uint32_t or an int sees them on the machines the system runs on. */
module Words {

  type Byte = b: int | 0 <= b < 0x100

  const WORD := 0x1_0000_0000

  type Word = w: int | 0 <= w < WORD

  type Int32 = i: int | -0x8000_0000 <= i < 0x8000_0000

  type Bytes = seq<Byte>

  datatype Option<+T> = None | Some(value: T)

  /** The result of a handler: Crash where the C code dereferences NULL or
      writes outside its buffers. */
  datatype Outcome<+T> = Crash | Ok(value: T)

  ghost predicate Distinct<T(!new)>(s: seq<T>) {
    forall i, j :: 0 <= i < j < |s| ==> s[i] != s[j]
  }

  /** The elements of s that are not gone, in order. */
  function Without<T>(s: seq<T>, gone: T -> bool): seq<T> {
    if s == [] then []
    else (if gone(s[0]) then [] else [s[0]]) + Without(s[1..], gone)
  }

  lemma {:induction false} WithoutExact<T(!new)>(s: seq<T>, gone: T -> bool)
    ensures forall x :: x in Without(s, gone) <==> x in s && !gone(x)
    ensures Distinct(s) ==> Distinct(Without(s, gone))
  {
    if s != [] {
      WithoutExact(s[1..], gone);
      var rest := Without(s[1..], gone);
      assert Without(s, gone) == if gone(s[0]) then rest else [s[0]] + rest;
      assert s == [s[0]] + s[1..];
      hide Without;
      if Distinct(s) {
        assert s[0] !in s[1..];
        assert Distinct(s[1..]) && s[0] !in rest;
        DistinctCons(s[0], rest);
      }
    }
  }

  lemma DistinctCons<T(!new)>(x: T, s: seq<T>)
    requires Distinct(s) && x !in s
    ensures Distinct([x] + s)
  {
    var t := [x] + s;
    assert forall k :: 1 <= k < |t| ==> t[k] == s[k - 1] && s[k - 1] in s;
  }

  /** list_remove_element: the first occurrence of x goes. */
  function RemoveFirst<T(==)>(list: seq<T>, x: T): seq<T> {
    if list == [] then []
    else if list[0] == x then list[1..]
    else [list[0]] + RemoveFirst(list[1..], x)
  }

  lemma {:induction false} RemoveFirstExact<T(!new)>(list: seq<T>, x: T)
    requires Distinct(list)
    ensures Distinct(RemoveFirst(list, x)) && forall y :: y in RemoveFirst(list, x) <==> y in list && y != x
  {
    if list != [] {
      var rest := list[1..];
      assert list == [list[0]] + rest && list[0] !in rest;
      RemoveFirstExact(rest, x);
      if list[0] != x {
        DistinctCons(list[0], RemoveFirst(rest, x));
      }
    }
  }

  function Le(w: Word): (bs: Bytes)
    ensures |bs| == 4
  {
    var (w1, w2, w3) := (w / 0x100, w / 0x100 / 0x100, w / 0x100 / 0x100 / 0x100);
    [w % 0x100, w1 % 0x100, w2 % 0x100, w3]
  }

  function FromLe(bs: Bytes): Word
    requires |bs| == 4
  {
    var b: seq<int> := bs;
    b[0] + 0x100 * (b[1] + 0x100 * (b[2] + 0x100 * b[3]))
  }

  lemma LeRoundTrip(w: Word)
    ensures FromLe(Le(w)) == w
  {
  }

  lemma FromLeRoundTrip(bs: Bytes)
    requires |bs| == 4
    ensures Le(FromLe(bs)) == bs
  {
    var w, b: seq<int> := FromLe(bs), bs;
    assert w / 0x100 == b[1] + 0x100 * (b[2] + 0x100 * b[3]);
    assert w / 0x100 / 0x100 == b[2] + 0x100 * b[3];
    assert w / 0x100 / 0x100 / 0x100 == b[3];
  }

  /** The word at address a, least significant byte first. */
  predicate WordAt(mem: Bytes, a: nat, w: Word)
    requires a + 4 <= |mem|
  {
    var b: seq<int> := mem;
    w == b[a] + 0x100 * b[a + 1] + 0x1_0000 * b[a + 2] + 0x100_0000 * b[a + 3]
  }

  lemma LittleEndian(w: Word)
    ensures WordAt(Le(w), 0, w)
  {
  }

  /** The bit pattern of a signed 32-bit integer (two's complement). */
  function Unsigned(i: Int32): Word {
    if i < 0 then i + WORD else i
  }

  function Signed(w: Word): Int32 {
    if w < 0x8000_0000 then w else w - WORD
  }

  /** Overwrite |bs| bytes of s from position at: memcpy(s + at, bs, |bs|). */
  function Patch(s: Bytes, at: nat, bs: Bytes): (r: Bytes)
    requires at + |bs| <= |s|
    ensures |r| == |s|
  {
    s[..at] + bs + s[at + |bs|..]
  }

  lemma WordThere(mem: Bytes, a: nat, w: Word)
    requires a + 4 <= |mem|
    ensures WordAt(mem, a, w) <==> w == FromLe(mem[a..a + 4])
  {
    var b := mem[a..a + 4];
    assert b[0] == mem[a] && b[1] == mem[a + 1] && b[2] == mem[a + 2] && b[3] == mem[a + 3];
  }

  lemma PatchedWord(mem: Bytes, a: nat, v: Word)
    requires a + 4 <= |mem|
    ensures WordAt(Patch(mem, a, Le(v)), a, v)
    ensures forall i :: 0 <= i < |mem| && !(a <= i < a + 4) ==> Patch(mem, a, Le(v))[i] == mem[i]
  {
    LittleEndian(v);
    hide Le;
  }

  /** The address of offset off in page or frame i. */
  function At(P: nat, i: nat, off: nat): nat {
    assert i * P >= 0;
    i * P + off
  }

  /** Page f of a byte array cut in pages of size P. */
  function Slice(s: Bytes, P: nat, f: nat): (r: Bytes)
    requires f * P + P <= |s|
    ensures |r| == P
  {
    s[f * P..f * P + P]
  }

  /** Different frames never overlap. */
  lemma FramesApart(P: nat, f: nat, g: nat)
    requires f < g
    ensures f * P + P <= g * P
  {
    var d := g - f - 1;
    assert d * P >= 0;
    assert g * P == (f + 1 + d) * P == f * P + P + d * P;
  }

  lemma FrameInside(F: nat, P: nat, f: nat)
    requires f < F
    ensures 0 <= f * P && f * P + P <= F * P
  {
    FramesApart(P, f, F);
  }

  lemma SubRange(s: Bytes, lo: nat, P: nat, off: nat, k: nat)
    requires lo + P <= |s| && off + k <= P
    ensures s[lo..lo + P][off..off + k] == s[lo + off..lo + off + k]
  {
    var whole := s[lo..lo + P];
    var a, b := whole[off..off + k], s[lo + off..lo + off + k];
    assert |a| == |b|;
    forall j | 0 <= j < k ensures a[j] == b[j] {
      assert a[j] == whole[off + j];
    }
    assert a == b;
  }

  /** A range inside page i of s. */
  lemma RangeOfSlice(s: Bytes, P: nat, i: nat, off: nat, k: nat)
    requires i * P + P <= |s| && off + k <= P
    ensures At(P, i, off) + k <= |s|
    ensures s[At(P, i, off)..At(P, i, off) + k] == Slice(s, P, i)[off..off + k]
  {
    var lo := i * P;
    assert At(P, i, off) == lo + off && Slice(s, P, i) == s[lo..lo + P];
    hide At, Slice;
    SubRange(s, lo, P, off, k);
  }

  /** Splitting an address f * P + off back into f and off. */
  lemma SplitAddress(P: nat, f: nat, off: nat)
    requires off < P
    ensures (f * P + off) / P == f && (f * P + off) % P == off
  {
    var a := f * P + off;
    var q, r := a / P, a % P;
    assert a == q * P + r;
    if q < f {
      FramesApart(P, q, f);
    } else if f < q {
      FramesApart(P, f, q);
    }
  }

  lemma JoinAddress(P: nat, a: nat)
    requires P > 0
    ensures a / P * P + a % P == a && a % P < P && a / P >= 0
  {
  }

  /** The bytes of frame f. */
  lemma ByteOfFrame(P: nat, i: nat, f: nat)
    requires P > 0
    ensures i / P == f <==> f * P <= i < f * P + P
    ensures i / P == f ==> i - f * P == i % P
  {
    JoinAddress(P, i);
    if f * P <= i < f * P + P {
      SplitAddress(P, f, i - f * P);
    }
  }

  lemma ZeroOffset(P: nat)
    requires P >= 4
    ensures 0 / P == 0 && 0 % P == 0
  {
  }

  lemma PatchOutside(s: Bytes, at: nat, bs: Bytes, lo: nat, hi: nat)
    requires at + |bs| <= |s| && lo <= hi <= |s|
    requires hi <= at || at + |bs| <= lo
    ensures Patch(s, at, bs)[lo..hi] == s[lo..hi]
  {
  }

  lemma PatchInside(s: Bytes, at: nat, bs: Bytes, lo: nat, hi: nat)
    requires lo <= at && at + |bs| <= hi <= |s|
    ensures Patch(s, at, bs)[lo..hi] == Patch(s[lo..hi], at - lo, bs)
  {
  }

  lemma PatchSplit(s: Bytes, at: nat, a: Bytes, b: Bytes)
    requires at + |a| + |b| <= |s|
    ensures Patch(s, at, a + b) == Patch(Patch(s, at, a), at + |a|, b)
  {
  }

  /** A write that stays inside one frame changes that frame as a patch and
      leaves every other frame alone. */
  lemma PatchFrame(s: Bytes, F: nat, P: nat, f: nat, off: nat, bs: Bytes, g: nat)
    requires |s| == F * P && f < F && g < F && off + |bs| <= P
    ensures f * P + P <= F * P && g * P + P <= F * P
    ensures var t := Patch(s, f * P + off, bs);
            Slice(t, P, g) == if g == f then Patch(Slice(s, P, f), off, bs) else Slice(s, P, g)
  {
    hide Patch;
    FrameInside(F, P, f);
    FrameInside(F, P, g);
    var at, lo := f * P + off, g * P;
    if g < f {
      FramesApart(P, g, f);
      PatchOutside(s, at, bs, lo, lo + P);
    } else if f < g {
      FramesApart(P, f, g);
      PatchOutside(s, at, bs, lo, lo + P);
    } else {
      PatchInside(s, at, bs, lo, lo + P);
    }
  }

  /** A write that starts in frame f and ends in frame f + 1 misses the others. */
  lemma PatchAcross(s: Bytes, F: nat, P: nat, f: nat, off: nat, bs: Bytes, g: nat)
    requires |s| == F * P && f + 1 < F && g < F && g != f && g != f + 1
    requires off + |bs| <= P + P && At(P, f, off) + |bs| <= |s|
    ensures g * P + P <= F * P
    ensures Slice(Patch(s, At(P, f, off), bs), P, g) == Slice(s, P, g)
  {
    FrameInside(F, P, g);
    if g < f {
      FramesApart(P, g, f);
    } else {
      assert (f + 2) * P == f * P + P + P;
      if f + 2 < g {
        FramesApart(P, f + 2, g);
      }
    }
    PatchOutside(s, At(P, f, off), bs, g * P, g * P + P);
  }
}
