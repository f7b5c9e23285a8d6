/** Message formats of shared/src/shared_utils.c: packets, execution contexts,
    instructions, filesystem instructions and lists of swap-block ids. */
module Codec {
  import opened Words

  datatype Registers = Registers(ax: Word, bx: Word, cx: Word, dx: Word)

  /** t_instruccion without its pid, which is never sent. */
  datatype RawInstruction = RawInstruction(code: Word, len1: Word, len2: Word, param1: Bytes, param2: Bytes) {
    /** The length fields are what memcpy copies. */
    predicate Fits() { |param1| == len1 && |param2| == len2 }
  }

  /** t_contexto_ejecucion. */
  datatype Context = Context(
    pid: Int32, pc: Int32, regs: Registers, frame: Int32, faultPage: Int32,
    instruction: RawInstruction, lastCode: Word, reason: Word)

  /** t_instruccion_fs. */
  datatype FsInstruction = FsInstruction(
    state: Word, pid: Word, len1: Word, len2: Word, param1: Bytes, param2: Bytes, pointer: Word) {
    predicate Fits() { |param1| == len1 && |param2| == len2 }
  }

  datatype Packet = Packet(op: Int32, body: Bytes)

  // ------------------------------------------------------------------ encoders

  function EncodeInt(i: Int32): Bytes { Le(Unsigned(i)) }

  /** serializar_instruccion. */
  function EncodeInstruction(i: RawInstruction): Bytes {
    Le(i.code) + (Le(i.len1) + (Le(i.len2) + (i.param1 + i.param2)))
  }

  function EncodeRegisters(r: Registers): Bytes {
    Le(r.ax) + (Le(r.bx) + (Le(r.cx) + Le(r.dx)))
  }

  /** serializar_contexto. */
  function EncodeContext(c: Context): Bytes {
    EncodeInt(c.pid) + (EncodeInt(c.pc) + (EncodeRegisters(c.regs) + (EncodeInt(c.frame) + (EncodeInt(c.faultPage)
    + (EncodeInstruction(c.instruction) + (Le(c.lastCode) + Le(c.reason)))))))
  }

  /** The size serializar_contexto declares. */
  function ContextSize(c: Context): int {
    4 * 4 + 16 + 4 + 4 * 2 + c.instruction.len1 + c.instruction.len2 + 4 + 4
  }

  function InstructionSize(i: RawInstruction): int {
    4 + 4 * 2 + i.len1 + i.len2
  }

  /** serializar_instruccion_fs. */
  function EncodeFs(i: FsInstruction): Bytes {
    Le(i.state) + (Le(i.pid) + (Le(i.len1) + (Le(i.len2) + (i.param1 + (i.param2 + Le(i.pointer))))))
  }

  function FsSize(i: FsInstruction): int {
    4 + 4 * 4 + i.len1 + i.len2
  }

  /** serializar_lista_swap. */
  function EncodeIds(ids: seq<Int32>): Bytes {
    if ids == [] then [] else EncodeInt(ids[0]) + EncodeIds(ids[1..])
  }

  /** serializar_paquete. */
  function EncodePacket(p: Packet): Bytes
    requires |p.body| < WORD
  {
    EncodeInt(p.op) + (Le(|p.body|) + p.body)
  }

  // ------------------------------------------------------------------ decoders

  /** memcpy of the next n bytes; None where the C code reads past the buffer. */
  function Take(b: Bytes, n: nat): (r: Option<(Bytes, Bytes)>)
    ensures r.Some? ==> |r.value.0| == n && r.value.0 + r.value.1 == b
  {
    if n <= |b| then Some((b[..n], b[n..])) else None
  }

  function TakeWord(b: Bytes): (r: Option<(Word, Bytes)>)
    ensures r.Some? ==> |r.value.1| < |b|
  {
    match Take(b, 4)
    case None => None
    case Some((x, rest)) => Some((FromLe(x), rest))
  }

  function TakeInt(b: Bytes): Option<(Int32, Bytes)> {
    match TakeWord(b)
    case None => None
    case Some((w, rest)) => Some((Signed(w), rest))
  }

  function TakeRegisters(b: Bytes): Option<(Registers, Bytes)> {
    match TakeWord(b) case None => None case Some((ax, b1)) =>
    match TakeWord(b1) case None => None case Some((bx, b2)) =>
    match TakeWord(b2) case None => None case Some((cx, b3)) =>
    match TakeWord(b3) case None => None case Some((dx, b4)) =>
      Some((Registers(ax, bx, cx, dx), b4))
  }

  function TakeInstruction(b: Bytes): Option<(RawInstruction, Bytes)> {
    match TakeWord(b) case None => None case Some((code, b1)) =>
    match TakeWord(b1) case None => None case Some((len1, b2)) =>
    match TakeWord(b2) case None => None case Some((len2, b3)) =>
    match Take(b3, len1) case None => None case Some((param1, b4)) =>
    match Take(b4, len2) case None => None case Some((param2, b5)) =>
      Some((RawInstruction(code, len1, len2, param1, param2), b5))
  }

  /** deserializar_instruccion. */
  function DecodeInstruction(b: Bytes): Option<RawInstruction> {
    match TakeInstruction(b) case None => None case Some((i, _)) => Some(i)
  }

  /** recibir_contexto. */
  function DecodeContext(b: Bytes): Option<Context> {
    match TakeInt(b) case None => None case Some((pid, b1)) =>
    match TakeInt(b1) case None => None case Some((pc, b2)) =>
    match TakeRegisters(b2) case None => None case Some((regs, b3)) =>
    match TakeInt(b3) case None => None case Some((frame, b4)) =>
    match TakeInt(b4) case None => None case Some((faultPage, b5)) =>
    match TakeInstruction(b5) case None => None case Some((instruction, b6)) =>
    match TakeWord(b6) case None => None case Some((lastCode, b7)) =>
    match TakeWord(b7) case None => None case Some((reason, _)) =>
      Some(Context(pid, pc, regs, frame, faultPage, instruction, lastCode, reason))
  }

  /** deserializar_instruccion_fs. */
  function DecodeFs(b: Bytes): Option<FsInstruction> {
    match TakeWord(b) case None => None case Some((state, b1)) =>
    match TakeWord(b1) case None => None case Some((pid, b2)) =>
    match TakeWord(b2) case None => None case Some((len1, b3)) =>
    match TakeWord(b3) case None => None case Some((len2, b4)) =>
    match Take(b4, len1) case None => None case Some((param1, b5)) =>
    match Take(b5, len2) case None => None case Some((param2, b6)) =>
    match TakeWord(b6) case None => None case Some((pointer, _)) =>
      Some(FsInstruction(state, pid, len1, len2, param1, param2, pointer))
  }

  /** recibir_listado_id_bloques. */
  function DecodeIds(b: Bytes): Option<seq<Int32>> {
    if b == [] then Some([])
    else
      match TakeWord(b) case None => None case Some((w, rest)) =>
      match DecodeIds(rest) case None => None case Some(ids) => Some([Signed(w)] + ids)
  }

  /** recibir_operacion followed by recibir_buffer; None when the stream ends early or
      the size is negative. */
  function TakePacket(stream: Bytes): (r: Option<(Packet, Bytes)>)
    ensures r.Some? ==> |r.value.1| < |stream|
  {
    match TakeInt(stream) case None => None case Some((op, b1)) =>
    match TakeInt(b1) case None => None case Some((size, b2)) =>
    if size < 0 then None else
    match Take(b2, size) case None => None case Some((body, rest)) => Some((Packet(op, body), rest))
  }

  function SplitStream(stream: Bytes): Option<seq<Packet>> {
    if stream == [] then Some([])
    else
      match TakePacket(stream) case None => None case Some((p, rest)) =>
      match SplitStream(rest) case None => None case Some(ps) => Some([p] + ps)
  }

  // --------------------------------------------------------------- round trips

  lemma TakeBack(x: Bytes, rest: Bytes)
    ensures Take(x + rest, |x|) == Some((x, rest))
  {
  }

  lemma TakeWordBack(w: Word, rest: Bytes)
    ensures TakeWord(Le(w) + rest) == Some((w, rest))
  {
    hide Le, FromLe;
    TakeBack(Le(w), rest);
    LeRoundTrip(w);
  }

  lemma TakeIntBack(i: Int32, rest: Bytes)
    ensures TakeInt(EncodeInt(i) + rest) == Some((i, rest))
  {
    TakeWordBack(Unsigned(i), rest);
  }

  lemma TakeRegistersBack(r: Registers, rest: Bytes)
    ensures TakeRegisters(EncodeRegisters(r) + rest) == Some((r, rest))
  {
    hide TakeWord, Le;
    var b3 := Le(r.dx) + rest;
    var b2 := Le(r.cx) + b3;
    var b1 := Le(r.bx) + b2;
    assert EncodeRegisters(r) + rest == Le(r.ax) + b1;
    TakeWordBack(r.ax, b1);
    TakeWordBack(r.bx, b2);
    TakeWordBack(r.cx, b3);
    TakeWordBack(r.dx, rest);
  }

  lemma TakeInstructionBack(i: RawInstruction, rest: Bytes)
    requires i.Fits()
    ensures TakeInstruction(EncodeInstruction(i) + rest) == Some((i, rest))
  {
    hide TakeWord, Take, Le;
    var b4 := i.param2 + rest;
    var b3 := i.param1 + b4;
    var b2 := Le(i.len2) + b3;
    var b1 := Le(i.len1) + b2;
    assert EncodeInstruction(i) + rest == Le(i.code) + b1;
    TakeWordBack(i.code, b1);
    TakeWordBack(i.len1, b2);
    TakeWordBack(i.len2, b3);
    TakeBack(i.param1, b4);
    TakeBack(i.param2, rest);
  }

  /** An instruction survives the memory-to-CPU trip, and its declared size is right. */
  lemma InstructionRoundTrip(i: RawInstruction)
    requires i.Fits()
    ensures DecodeInstruction(EncodeInstruction(i)) == Some(i)
    ensures |EncodeInstruction(i)| == InstructionSize(i)
  {
    hide TakeInstruction, Le;
    TakeInstructionBack(i, []);
    assert EncodeInstruction(i) + [] == EncodeInstruction(i);
  }

  /** A context survives the kernel-to-CPU trip, and its declared size is right. */
  lemma ContextRoundTrip(c: Context)
    requires c.instruction.Fits()
    ensures DecodeContext(EncodeContext(c)) == Some(c)
  {
    hide TakeInt, TakeWord, TakeRegisters, TakeInstruction, EncodeInt, EncodeRegisters, EncodeInstruction, Le;
    var b7 := Le(c.reason);
    var b6 := Le(c.lastCode) + b7;
    var b5 := EncodeInstruction(c.instruction) + b6;
    var b4 := EncodeInt(c.faultPage) + b5;
    var b3 := EncodeInt(c.frame) + b4;
    var b2 := EncodeRegisters(c.regs) + b3;
    var b1 := EncodeInt(c.pc) + b2;
    TakeIntBack(c.pid, b1);
    TakeIntBack(c.pc, b2);
    TakeRegistersBack(c.regs, b3);
    TakeIntBack(c.frame, b4);
    TakeIntBack(c.faultPage, b5);
    TakeInstructionBack(c.instruction, b6);
    TakeWordBack(c.lastCode, b7);
    TakeWordBack(c.reason, []);
    assert Le(c.reason) + [] == b7;
  }

  lemma ContextSizeRight(c: Context)
    requires c.instruction.Fits()
    ensures |EncodeContext(c)| == ContextSize(c)
  {
    hide Le;
  }

  lemma FsRoundTrip(i: FsInstruction)
    requires i.Fits()
    ensures DecodeFs(EncodeFs(i)) == Some(i) && |EncodeFs(i)| == FsSize(i)
  {
    hide TakeWord, Take, Le;
    var b6 := Le(i.pointer);
    var b5 := i.param2 + b6;
    var b4 := i.param1 + b5;
    var b3 := Le(i.len2) + b4;
    var b2 := Le(i.len1) + b3;
    var b1 := Le(i.pid) + b2;
    TakeWordBack(i.state, b1);
    TakeWordBack(i.pid, b2);
    TakeWordBack(i.len1, b3);
    TakeWordBack(i.len2, b4);
    TakeBack(i.param1, b5);
    TakeBack(i.param2, b6);
    TakeWordBack(i.pointer, []);
    assert Le(i.pointer) + [] == b6;
  }

  lemma {:induction false} IdsRoundTrip(ids: seq<Int32>)
    ensures DecodeIds(EncodeIds(ids)) == Some(ids) && |EncodeIds(ids)| == 4 * |ids|
  {
    hide TakeWord, Le;
    if ids != [] {
      IdsRoundTrip(ids[1..]);
      TakeWordBack(Unsigned(ids[0]), EncodeIds(ids[1..]));
      assert [ids[0]] + ids[1..] == ids;
    }
  }

  /** Packets are framed: one packet in front of anything is read back alone. */
  lemma TakePacketBack(p: Packet, rest: Bytes)
    requires |p.body| < 0x8000_0000
    ensures TakePacket(EncodePacket(p) + rest) == Some((p, rest))
  {
    hide TakeInt, Take, Le;
    var b2 := p.body + rest;
    var b1 := EncodeInt(|p.body|) + b2;
    assert EncodePacket(p) + rest == EncodeInt(p.op) + b1;
    TakeIntBack(p.op, b1);
    TakeIntBack(|p.body|, b2);
    TakeBack(p.body, rest);
  }

  function EncodeStream(ps: seq<Packet>): Bytes
    requires forall k :: 0 <= k < |ps| ==> |ps[k].body| < 0x8000_0000
  {
    if ps == [] then [] else EncodePacket(ps[0]) + EncodeStream(ps[1..])
  }

  /** A stream of packets splits back into the same packets. */
  lemma {:induction false} StreamRoundTrip(ps: seq<Packet>)
    requires forall k :: 0 <= k < |ps| ==> |ps[k].body| < 0x8000_0000
    ensures SplitStream(EncodeStream(ps)) == Some(ps)
  {
    hide TakePacket;
    if ps != [] {
      StreamRoundTrip(ps[1..]);
      TakePacketBack(ps[0], EncodeStream(ps[1..]));
      assert [ps[0]] + ps[1..] == ps;
    }
  }
}
