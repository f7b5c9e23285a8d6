/** The message formats as shared/src/shared_utils.c writes and reads them: memcpy at a
    moving offset into a buffer of the declared size. Each routine is proved against its
    format in Codec. */
module Buffers {
  import opened Words
  import opened Codec

  /** buffer->stream being filled, and desplazamiento. */
  class Writer {
    const stream: array<Byte>
    var offset: nat

    ghost predicate Valid()
      reads this
    {
      offset <= stream.Length
    }

    function Written(): Bytes
      reads this, stream
      requires Valid()
    {
      stream[..offset]
    }

    constructor (size: nat)
      ensures Valid() && offset == 0 && stream.Length == size && fresh(stream)
    {
      stream := new Byte[size];
      offset := 0;
    }

    method Put(bs: Bytes)
      requires Valid() && offset + |bs| <= stream.Length
      modifies this`offset, stream
      ensures Valid() && Written() == old(Written()) + bs
      ensures offset == old(offset) + |bs|
    {
      for i := 0 to |bs|
        invariant offset == old(offset)
        invariant forall k :: 0 <= k < offset ==> stream[k] == old(stream[k])
        invariant forall k :: 0 <= k < i ==> stream[offset + k] == bs[k]
      {
        stream[offset + i] := bs[i];
      }
      offset := offset + |bs|;
    }

    method PutInstruction(i: RawInstruction)
      requires Valid() && i.Fits() && offset + InstructionSize(i) <= stream.Length
      modifies this`offset, stream
      ensures Valid() && Written() == old(Written()) + EncodeInstruction(i)
      ensures offset == old(offset) + InstructionSize(i)
    {
      hide Le, EncodeInstruction;
      ghost var before := Written();
      Put(Le(i.code));
      Put(Le(i.len1));
      Put(Le(i.len2));
      Put(i.param1);
      Put(i.param2);
      InstructionOneByOne(before, i);
    }

    /** The ints and registers a context starts with. */
    method PutFront(c: Context)
      requires Valid() && offset + 32 <= stream.Length
      modifies this`offset, stream
      ensures Valid() && Written() == old(Written()) + Front(c)
      ensures offset == old(offset) + 32
    {
      hide EncodeInt, EncodeRegisters;
      IntSize();
      RegistersSize(c.regs);
      Put(EncodeInt(c.pid));
      Put(EncodeInt(c.pc));
      Put(EncodeRegisters(c.regs));
      Put(EncodeInt(c.frame));
      Put(EncodeInt(c.faultPage));
    }
  }

  /** serializar_contexto: a buffer of the declared size, filled exactly. */
  method SerializeContext(c: Context) returns (stream: array<Byte>)
    requires c.instruction.Fits()
    ensures fresh(stream) && stream.Length == ContextSize(c) && stream[..] == EncodeContext(c)
  {
    hide Le, EncodeInstruction, EncodeContext, Front;
    var w := new Writer(ContextSize(c));
    w.PutFront(c);
    w.PutInstruction(c.instruction);
    w.Put(Le(c.lastCode));
    w.Put(Le(c.reason));
    OneByOne(c);
    return w.stream;
  }

  function Front(c: Context): Bytes {
    EncodeInt(c.pid) + EncodeInt(c.pc) + EncodeRegisters(c.regs) + EncodeInt(c.frame) + EncodeInt(c.faultPage)
  }

  /** The fields of a context, each written behind the ones before. */
  lemma OneByOne(c: Context)
    ensures EncodeContext(c) == [] + Front(c) + EncodeInstruction(c.instruction) + Le(c.lastCode) + Le(c.reason)
  {
    hide Le, EncodeInstruction, EncodeInt, EncodeRegisters;
  }

  lemma InstructionOneByOne(before: Bytes, i: RawInstruction)
    ensures before + Le(i.code) + Le(i.len1) + Le(i.len2) + i.param1 + i.param2 == before + EncodeInstruction(i)
  {
    hide Le;
  }

  lemma RegistersSize(r: Registers)
    ensures |EncodeRegisters(r)| == 16
  {
    hide Le;
  }

  lemma IntSize()
    ensures forall i {:trigger EncodeInt(i)} :: |EncodeInt(i)| == 4
  {
  }

  /** serializar_paquete. */
  method SerializePacket(p: Packet) returns (stream: array<Byte>)
    requires |p.body| < 0x8000_0000
    ensures fresh(stream) && stream[..] == EncodePacket(p)
  {
    hide Le, EncodeInt;
    IntSize();
    var w := new Writer(4 + 4 + |p.body|);
    w.Put(EncodeInt(p.op));
    w.Put(Le(|p.body|));
    w.Put(p.body);
    return w.stream;
  }

  /** serializar_lista_swap: the stream grows by one int for each id. */
  method SerializeIds(ids: seq<Int32>) returns (stream: array<Byte>)
    ensures fresh(stream) && stream[..] == EncodeIds(ids)
  {
    hide EncodeInt, EncodeIds;
    IntSize();
    stream := new Byte[0];
    EncodeNone();
    for i := 0 to |ids|
      invariant fresh(stream) && stream[..] == EncodeIds(ids[..i])
    {
      var w := new Writer(stream.Length + 4);
      w.Put(stream[..]);
      w.Put(EncodeInt(ids[i]));
      stream := w.stream;
      assert ids[..i + 1][..i] == ids[..i];
      EncodeIdsLast(ids[..i], ids[i]);
      assert ids[..i + 1] == ids[..i] + [ids[i]];
    }
    assert ids[..|ids|] == ids;
  }

  lemma EncodeNone()
    ensures EncodeIds([]) == []
  {
  }

  lemma {:induction false} EncodeIdsLast(ids: seq<Int32>, last: Int32)
    ensures EncodeIds(ids + [last]) == EncodeIds(ids) + EncodeInt(last)
  {
    hide EncodeInt;
    if ids == [] {
      assert EncodeIds([last]) == EncodeInt(last) + EncodeIds([]);
    } else {
      EncodeIdsLast(ids[1..], last);
      assert (ids + [last])[1..] == ids[1..] + [last];
    }
  }

  /** A received buffer, and the offset of the next memcpy out of it. */
  class Reader {
    const buffer: array<Byte>
    var offset: nat

    ghost predicate Valid()
      reads this
    {
      offset <= buffer.Length
    }

    function Rest(): Bytes
      reads this, buffer
      requires Valid()
    {
      buffer[offset..]
    }

    constructor (b: array<Byte>)
      ensures Valid() && buffer == b && Rest() == b[..]
    {
      buffer, offset := b, 0;
    }

    /** memcpy of the next n bytes; None where it would read past the buffer. */
    method Get(n: nat) returns (r: Option<Bytes>)
      requires Valid()
      modifies this
      ensures Valid()
      ensures r == match Take(old(Rest()), n) case None => None case Some((x, _)) => Some(x)
      ensures r.Some? ==> Take(old(Rest()), n) == Some((r.value, Rest()))
    {
      if n > buffer.Length - offset {
        return None;
      }
      r := Some(buffer[offset..offset + n]);
      assert buffer[offset..][..n] == buffer[offset..offset + n];
      assert buffer[offset..][n..] == buffer[offset + n..];
      offset := offset + n;
    }

    method GetWord() returns (r: Option<Word>)
      requires Valid()
      modifies this
      ensures Valid() && (r.None? <==> TakeWord(old(Rest())).None?)
      ensures r.Some? ==> TakeWord(old(Rest())) == Some((r.value, Rest()))
    {
      hide Take, FromLe;
      var x := Get(4);
      r := if x.None? then None else Some(FromLe(x.value));
    }

    method GetInt() returns (r: Option<Int32>)
      requires Valid()
      modifies this
      ensures Valid() && (r.None? <==> TakeInt(old(Rest())).None?)
      ensures r.Some? ==> TakeInt(old(Rest())) == Some((r.value, Rest()))
    {
      hide TakeWord;
      var x := GetWord();
      r := if x.None? then None else Some(Signed(x.value));
    }

    method GetRegisters() returns (r: Option<Registers>)
      requires Valid()
      modifies this
      ensures Valid() && (r.None? <==> TakeRegisters(old(Rest())).None?)
      ensures r.Some? ==> TakeRegisters(old(Rest())) == Some((r.value, Rest()))
    {
      hide TakeWord;
      var ax := GetWord();
      if ax.None? { return None; }
      var bx := GetWord();
      if bx.None? { return None; }
      var cx := GetWord();
      if cx.None? { return None; }
      var dx := GetWord();
      if dx.None? { return None; }
      return Some(Registers(ax.value, bx.value, cx.value, dx.value));
    }

    method GetInstruction() returns (r: Option<RawInstruction>)
      requires Valid()
      modifies this
      ensures Valid() && (r.None? <==> TakeInstruction(old(Rest())).None?)
      ensures r.Some? ==> TakeInstruction(old(Rest())) == Some((r.value, Rest()))
    {
      hide TakeWord, Take;
      var code := GetWord();
      if code.None? { return None; }
      var len1 := GetWord();
      if len1.None? { return None; }
      var len2 := GetWord();
      if len2.None? { return None; }
      var param1 := Get(len1.value);
      if param1.None? { return None; }
      var param2 := Get(len2.value);
      if param2.None? { return None; }
      return Some(RawInstruction(code.value, len1.value, len2.value, param1.value, param2.value));
    }
  }

  /** recibir_contexto, once its buffer has been received. */
  method ReceiveContext(buffer: array<Byte>) returns (r: Option<Context>)
    ensures r == DecodeContext(buffer[..])
  {
    hide TakeWord, TakeInt, TakeRegisters, TakeInstruction;
    var from := new Reader(buffer);
    var pid := from.GetInt();
    if pid.None? { return None; }
    var pc := from.GetInt();
    if pc.None? { return None; }
    var regs := from.GetRegisters();
    if regs.None? { return None; }
    var frame := from.GetInt();
    if frame.None? { return None; }
    var faultPage := from.GetInt();
    if faultPage.None? { return None; }
    var instruction := from.GetInstruction();
    if instruction.None? { return None; }
    var lastCode := from.GetWord();
    if lastCode.None? { return None; }
    var reason := from.GetWord();
    if reason.None? { return None; }
    return Some(Context(pid.value, pc.value, regs.value, frame.value, faultPage.value, instruction.value,
                        lastCode.value, reason.value));
  }

  /** recibir_listado_id_bloques: ints until the offset reaches the size. */
  method ReceiveIds(buffer: array<Byte>) returns (r: Option<seq<Int32>>)
    ensures r == DecodeIds(buffer[..])
  {
    hide TakeWord, DecodeIds, Ahead;
    var from := new Reader(buffer);
    var ids: seq<Int32> := [];
    AheadNone(ids, DecodeIds(buffer[..]));
    while from.offset < buffer.Length
      invariant from.Valid() && from.buffer == buffer
      invariant DecodeIds(buffer[..]) == Ahead(ids, DecodeIds(from.Rest()))
      decreases |from.Rest()|
    {
      ghost var rest := from.Rest();
      AheadStep(ids, rest);
      var w := from.GetWord();
      if w.None? {
        return None;
      }
      ids := ids + [Signed(w.value)];
    }
    assert from.Rest() == [];
    AheadNone(ids, Some([]));
    return Some(ids);
  }

  function Ahead(ids: seq<Int32>, r: Option<seq<Int32>>): Option<seq<Int32>> {
    match r case None => None case Some(more) => Some(ids + more)
  }

  lemma AheadNone(ids: seq<Int32>, r: Option<seq<Int32>>)
    ensures DecodeIds([]) == Some([])
    ensures Ahead([], r) == r && Ahead(ids, Some([])) == Some(ids)
  {
    assert ids + [] == ids;
    if r.Some? {
      assert [] + r.value == r.value;
    }
  }

  lemma AheadStep(ids: seq<Int32>, b: Bytes)
    requires b != []
    ensures Ahead(ids, DecodeIds(b))
         == match TakeWord(b)
            case None => None
            case Some((w, rest)) => Ahead(ids + [Signed(w)], DecodeIds(rest))
  {
    hide TakeWord;
    if TakeWord(b).Some? {
      var (w, rest) := TakeWord(b).value;
      var more := DecodeIds(rest);
      if more.Some? {
        assert (ids + [Signed(w)]) + more.value == ids + ([Signed(w)] + more.value);
      }
    }
  }
}
