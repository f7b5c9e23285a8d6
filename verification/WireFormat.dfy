/** Where each field of a message is, byte by byte: the layout that every process of the system
    reads and writes, whatever code it does it with. */
module WireFormat {
  import opened Words
  import opened Codec

  /** bs is in e at offset off. */
  predicate Part(e: Bytes, off: nat, bs: Bytes) {
    off + |bs| <= |e| && e[off..off + |bs|] == bs
  }

  /** A word, least significant byte first, is in e at offset off. */
  predicate WordIn(e: Bytes, off: nat, w: Word) {
    off + 4 <= |e| && WordAt(e, off, w)
  }

  /** An int, in two's complement. */
  predicate IntIn(e: Bytes, off: nat, i: Int32) {
    WordIn(e, off, if i < 0 then i + 0x1_0000_0000 else i)
  }

  lemma PartIsWord(e: Bytes, off: nat, w: Word)
    requires Part(e, off, Le(w))
    ensures WordIn(e, off, w)
  {
    LittleEndian(w);
    var b := e[off..off + 4];
    assert b == Le(w) && b[0] == e[off] && b[1] == e[off + 1] && b[2] == e[off + 2] && b[3] == e[off + 3];
    hide Le;
  }

  lemma PartIsInt(e: Bytes, off: nat, i: Int32)
    requires Part(e, off, EncodeInt(i))
    ensures IntIn(e, off, i)
  {
    PartIsWord(e, off, Unsigned(i));
  }

  /** The field in front, and those behind it. */
  lemma InFront(e: Bytes, off: nat, x: Bytes, rest: Bytes)
    requires Part(e, off, x + rest)
    ensures Part(e, off, x) && Part(e, off + |x|, rest)
  {
    var all := x + rest;
    assert e[off..off + |all|] == all;
    assert e[off..off + |x|] == all[..|x|];
    assert e[off + |x|..off + |x| + |rest|] == all[|x|..];
  }

  // ----------------------------------------------------------------------- messages

  ghost predicate InstructionIn(e: Bytes, off: nat, i: RawInstruction) {
    && WordIn(e, off, i.code) && WordIn(e, off + 4, i.len1) && WordIn(e, off + 8, i.len2)
    && Part(e, off + 12, i.param1) && Part(e, off + 12 + |i.param1|, i.param2)
  }

  lemma InstructionPart(e: Bytes, off: nat, i: RawInstruction)
    requires Part(e, off, EncodeInstruction(i))
    ensures InstructionIn(e, off, i)
  {
    hide Le, Part, WordIn;
    InFront(e, off, Le(i.code), Le(i.len1) + (Le(i.len2) + (i.param1 + i.param2)));
    InFront(e, off + 4, Le(i.len1), Le(i.len2) + (i.param1 + i.param2));
    InFront(e, off + 8, Le(i.len2), i.param1 + i.param2);
    InFront(e, off + 12, i.param1, i.param2);
    PartIsWord(e, off, i.code);
    PartIsWord(e, off + 4, i.len1);
    PartIsWord(e, off + 8, i.len2);
  }

  lemma Whole(e: Bytes)
    ensures Part(e, 0, e)
  {
    assert e[0..|e|] == e;
  }

  /** An instruction: code, two lengths, two texts. */
  lemma InstructionLayout(i: RawInstruction)
    requires i.Fits()
    ensures var e := EncodeInstruction(i); |e| == 12 + i.len1 + i.len2 && InstructionIn(e, 0, i)
  {
    hide Part;
    InstructionRoundTrip(i);
    Whole(EncodeInstruction(i));
    InstructionPart(EncodeInstruction(i), 0, i);
  }

  ghost predicate RegistersIn(e: Bytes, off: nat, r: Registers) {
    WordIn(e, off, r.ax) && WordIn(e, off + 4, r.bx) && WordIn(e, off + 8, r.cx) && WordIn(e, off + 12, r.dx)
  }

  lemma RegistersPart(e: Bytes, off: nat, r: Registers)
    requires Part(e, off, EncodeRegisters(r))
    ensures RegistersIn(e, off, r) && |EncodeRegisters(r)| == 16
  {
    hide Le, Part, WordIn;
    InFront(e, off, Le(r.ax), Le(r.bx) + (Le(r.cx) + Le(r.dx)));
    InFront(e, off + 4, Le(r.bx), Le(r.cx) + Le(r.dx));
    InFront(e, off + 8, Le(r.cx), Le(r.dx));
    PartIsWord(e, off, r.ax);
    PartIsWord(e, off + 4, r.bx);
    PartIsWord(e, off + 8, r.cx);
    PartIsWord(e, off + 12, r.dx);
  }

  /** A context: pid, program counter, the four registers, frame, faulting page, instruction,
      last code, reason. */
  lemma ContextLayout(c: Context)
    requires c.instruction.Fits()
    ensures var e, last := EncodeContext(c), 44 + c.instruction.len1 + c.instruction.len2;
            && |e| == last + 8
            && IntIn(e, 0, c.pid) && IntIn(e, 4, c.pc) && RegistersIn(e, 8, c.regs) && IntIn(e, 24, c.frame)
            && IntIn(e, 28, c.faultPage) && InstructionIn(e, 32, c.instruction)
            && WordIn(e, last, c.lastCode) && WordIn(e, last + 4, c.reason)
  {
    hide Le, Part, IntIn, WordIn, RegistersIn, InstructionIn, EncodeInt, EncodeRegisters, EncodeInstruction;
    var e := EncodeContext(c);
    var b7 := Le(c.reason);
    var b6 := Le(c.lastCode) + b7;
    var b5 := EncodeInstruction(c.instruction) + b6;
    var b4 := EncodeInt(c.faultPage) + b5;
    var b3 := EncodeInt(c.frame) + b4;
    var b2 := EncodeRegisters(c.regs) + b3;
    var b1 := EncodeInt(c.pc) + b2;
    Sizes(c);
    InstructionRoundTrip(c.instruction);
    Whole(e);
    InFront(e, 0, EncodeInt(c.pid), b1);
    InFront(e, 4, EncodeInt(c.pc), b2);
    InFront(e, 8, EncodeRegisters(c.regs), b3);
    InFront(e, 24, EncodeInt(c.frame), b4);
    InFront(e, 28, EncodeInt(c.faultPage), b5);
    InFront(e, 32, EncodeInstruction(c.instruction), b6);
    var last := 44 + c.instruction.len1 + c.instruction.len2;
    InFront(e, last, Le(c.lastCode), b7);
    ContextParts(c, e, last);
    ContextSizeRight(c);
  }

  lemma ContextParts(c: Context, e: Bytes, last: nat)
    requires Part(e, 0, EncodeInt(c.pid)) && Part(e, 4, EncodeInt(c.pc)) && Part(e, 8, EncodeRegisters(c.regs))
    requires Part(e, 24, EncodeInt(c.frame)) && Part(e, 28, EncodeInt(c.faultPage))
    requires Part(e, 32, EncodeInstruction(c.instruction)) && Part(e, last, Le(c.lastCode)) && Part(e, last + 4, Le(c.reason))
    ensures IntIn(e, 0, c.pid) && IntIn(e, 4, c.pc) && RegistersIn(e, 8, c.regs) && IntIn(e, 24, c.frame)
    ensures IntIn(e, 28, c.faultPage) && InstructionIn(e, 32, c.instruction)
    ensures WordIn(e, last, c.lastCode) && WordIn(e, last + 4, c.reason)
  {
    hide Part, IntIn, WordIn, RegistersIn, InstructionIn, EncodeInt, EncodeRegisters, EncodeInstruction;
    PartIsInt(e, 0, c.pid);
    PartIsInt(e, 4, c.pc);
    RegistersPart(e, 8, c.regs);
    PartIsInt(e, 24, c.frame);
    PartIsInt(e, 28, c.faultPage);
    InstructionPart(e, 32, c.instruction);
    PartIsWord(e, last, c.lastCode);
    PartIsWord(e, last + 4, c.reason);
  }

  lemma Sizes(c: Context)
    ensures |EncodeInt(c.pid)| == |EncodeInt(c.pc)| == |EncodeInt(c.frame)| == |EncodeInt(c.faultPage)| == 4
    ensures |EncodeRegisters(c.regs)| == 16
  {
    hide Le;
  }

  /** A filesystem instruction: state, pid, two lengths, two texts, file pointer. */
  lemma FsLayout(i: FsInstruction)
    requires i.Fits()
    ensures var e := EncodeFs(i);
            && |e| == 20 + i.len1 + i.len2
            && WordIn(e, 0, i.state) && WordIn(e, 4, i.pid) && WordIn(e, 8, i.len1) && WordIn(e, 12, i.len2)
            && Part(e, 16, i.param1) && Part(e, 16 + i.len1, i.param2) && WordIn(e, 16 + i.len1 + i.len2, i.pointer)
  {
    hide Le, Part, WordIn;
    var e := EncodeFs(i);
    var b6 := Le(i.pointer);
    var b5 := i.param2 + b6;
    var b4 := i.param1 + b5;
    var b3 := Le(i.len2) + b4;
    var b2 := Le(i.len1) + b3;
    var b1 := Le(i.pid) + b2;
    FsRoundTrip(i);
    Whole(e);
    InFront(e, 0, Le(i.state), b1);
    InFront(e, 4, Le(i.pid), b2);
    InFront(e, 8, Le(i.len1), b3);
    InFront(e, 12, Le(i.len2), b4);
    InFront(e, 16, i.param1, b5);
    InFront(e, 16 + i.len1, i.param2, b6);
    PartIsWord(e, 0, i.state);
    PartIsWord(e, 4, i.pid);
    PartIsWord(e, 8, i.len1);
    PartIsWord(e, 12, i.len2);
    PartIsWord(e, 16 + i.len1 + i.len2, i.pointer);
  }

  /** A list of block ids: one int after the other. */
  lemma {:induction false} IdsLayout(ids: seq<Int32>)
    ensures |EncodeIds(ids)| == 4 * |ids| && forall k :: 0 <= k < |ids| ==> IntIn(EncodeIds(ids), 4 * k, ids[k])
  {
    hide Le, Part, IntIn;
    if ids != [] {
      IdsLayout(ids[1..]);
      var e, rest := EncodeIds(ids), EncodeIds(ids[1..]);
      Whole(e);
      InFront(e, 0, EncodeInt(ids[0]), rest);
      PartIsInt(e, 0, ids[0]);
      forall k | 0 < k < |ids| ensures IntIn(e, 4 * k, ids[k]) {
        Later(e, 4, rest, 4 * (k - 1), ids[k]);
      }
    }
  }

  lemma Later(e: Bytes, off: nat, rest: Bytes, at: nat, i: Int32)
    requires Part(e, off, rest) && IntIn(rest, at, i)
    ensures IntIn(e, off + at, i)
  {
    assert forall j :: 0 <= j < |rest| ==> rest[j] == e[off..off + |rest|][j] == e[off + j];
  }

  /** A packet: operation, size of the body, body. */
  lemma PacketLayout(p: Packet)
    requires |p.body| < 0x8000_0000
    ensures var e := EncodePacket(p);
            |e| == 8 + |p.body| && IntIn(e, 0, p.op) && IntIn(e, 4, |p.body|) && Part(e, 8, p.body)
  {
    hide Le, Part, IntIn;
    var e := EncodePacket(p);
    Whole(e);
    InFront(e, 0, EncodeInt(p.op), Le(|p.body|) + p.body);
    InFront(e, 4, Le(|p.body|), p.body);
    PartIsInt(e, 0, p.op);
    PartIsInt(e, 4, |p.body|);
  }
}
