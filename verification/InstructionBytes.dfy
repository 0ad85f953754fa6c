/**
 The machine code of every instruction of crates/cv_asm/src/lib.rs as literal bytes, for all
 registers and operands.  The opcodes are those of the Intel SDM, which the source's tests quote.
 */
module InstructionBytes {
  import opened Common
  import opened Wire
  import opened X86
  import opened CodeStream
  import opened Assembler
  import opened Emitter

  // ----- Parts -----

  /** A REX prefix with W set. */
  function RexW(r: Reg, x: Reg, b: Reg): byte { 0x48 + 4 * (r / 8) + 2 * (x / 8) + b / 8 }

  /** A REX prefix without W, left out if it would be bare. */
  function RexOpt(r: Reg, b: Reg): bytes { if r >= 8 || b >= 8 then [0x40 + 4 * (r / 8) + b / 8] else [] }

  /** ModR/M between registers. */
  function Regs(reg: Reg, rm: Reg): byte { 0xC0 + 8 * (reg % 8) + rm % 8 }

  /** ModR/M of base plus 32-bit displacement, with the SIB byte that RSP and R12 need. */
  function Mem(reg: Reg, base: Reg, disp: i32): bytes {
    [0x80 + 8 * (reg % 8) + base % 8] + (if base == 4 || base == 12 then [0x24] else []) + Word(disp)
  }

  lemma RexWIs(r: Reg, x: Reg, b: Reg)
    ensures RexBytes(RexIf(true, r >= 8, x >= 8, b >= 8)) == [RexW(r, x, b)]
  {
  }

  lemma RexOptIs(r: Reg, b: Reg)
    ensures RexBytes(RexIf(false, r >= 8, false, b >= 8)) == RexOpt(r, b)
  {
  }

  lemma RegsIs(reg: Reg, rm: Reg)
    ensures OperandBytes(RegForm(reg, rm)) == [Regs(reg, rm)]
  {
  }

  lemma AfterNothing(a: bytes, b: bytes, c: bytes, whole: bytes)
    requires [] + a + b + c == [] + whole
    ensures whole == a + b + c
  {
    assert [] + whole == whole && [] + a == a;
  }

  lemma MemIs(reg: Reg, base: Reg, disp: i32)
    ensures OperandBytes(MemForm(reg, base, disp)) == Mem(reg, base, disp)
  {
    MemFormBytes([], reg, base, disp);
    AfterNothing([ModRMByte(2, reg % 8, base % 8)], if base % 8 == 4 then [36] else [], Word(disp), OperandBytes(MemForm(reg, base, disp)));
    LowBits(reg, base);
  }

  lemma LowBits(reg: Reg, base: Reg)
    ensures ModRMByte(2, reg % 8, base % 8) == 0x80 + 8 * (reg % 8) + base % 8
    ensures (base % 8 == 4) == (base == 4 || base == 12)
  {
  }

  /** Plain parts in a row. */
  lemma PlainRow(r: bytes, opcode: byte, operand: bytes)
    ensures r + ([opcode] + (operand + [])) == r + [opcode] + operand
  {
  }

  /** Escaped parts in a row. */
  lemma EscapedRow(p: bytes, r: bytes, opcode: byte, operand: bytes)
    ensures p + (r + ([0x0F] + ([opcode] + operand))) == p + r + [0x0F, opcode] + operand
  {
  }

  // ----- General registers -----

  lemma WideRegs(i: Instr, opcode: byte, reg: Reg, rm: Reg, imm: bytes)
    requires Fields(i) == Legacy(None, RexIf(true, reg >= 8, false, rm >= 8), false, opcode, RegForm(reg, rm), imm)
    ensures Encode(i) == [RexW(reg, 0, rm), opcode, Regs(reg, rm)] + imm
  {
    PlainLayout(i, RexIf(true, reg >= 8, false, rm >= 8), opcode, RegForm(reg, rm), imm);
    RexWIs(reg, 0, rm);
    RegsIs(reg, rm);
  }

  lemma AluCode(op: Alu, dst: Reg, src: Reg, opcode: byte)
    requires opcode == match op case Mov => 0x89 case Add => 0x01 case Sub => 0x29 case Cmp => 0x39
                                case Xor => 0x31 case And => 0x21 case Or => 0x09 case Test => 0x85
    ensures Encode(AluRR(op, dst, src)) == [RexW(src, 0, dst), opcode, Regs(src, dst)]
  {
    WideRegs(AluRR(op, dst, src), opcode, src, dst, []);
  }

  lemma ImmCode(op: ImmOp, dst: Reg, imm: i32, opcode: byte, ext: Reg)
    requires (opcode, ext) == match op case MovI => (0xC7, 0) case AddI => (0x81, 0) case SubI => (0x81, 5) case CmpI => (0x81, 7)
    ensures Encode(WithImm(op, dst, imm)) == [RexW(0, 0, dst), opcode, Regs(ext, dst)] + Word(imm)
  {
    WideRegs(WithImm(op, dst, imm), opcode, ext, dst, Word(imm));
  }

  lemma ShiftCode(op: ShiftOp, dst: Reg, count: byte, ext: Reg)
    requires ext == match op case Shl => 4 case Shr => 5 case Sar => 7
    ensures Encode(Shift(op, dst, count)) == [RexW(0, 0, dst), 0xC1, Regs(ext, dst), count]
  {
    WideRegs(Shift(op, dst, count), 0xC1, ext, dst, [count]);
  }

  lemma UnaryCode(op: UnaryOp, dst: Reg, ext: Reg)
    requires ext == match op case Neg => 3 case Idiv => 7
    ensures Encode(Unary(op, dst)) == [RexW(0, 0, dst), 0xF7, Regs(ext, dst)]
  {
    WideRegs(Unary(op, dst), 0xF7, ext, dst, []);
  }

  lemma MovsxdCode(dst: Reg, src: Reg)
    ensures Encode(WidenRR(Movsxd, dst, src)) == [RexW(dst, 0, src), 0x63, Regs(dst, src)]
  {
    WideRegs(WidenRR(Movsxd, dst, src), 0x63, dst, src, []);
  }

  lemma WideEscapedRegs(i: Instr, opcode: byte, reg: Reg, rm: Reg)
    requires Fields(i) == Legacy(None, RexIf(true, reg >= 8, false, rm >= 8), true, opcode, RegForm(reg, rm), [])
    ensures Encode(i) == [RexW(reg, 0, rm), 0x0F, opcode, Regs(reg, rm)]
  {
    EscapedLayout(i, None, RexIf(true, reg >= 8, false, rm >= 8), opcode, RegForm(reg, rm));
    RexWIs(reg, 0, rm);
    RegsIs(reg, rm);
    EscapedRow([], [RexW(reg, 0, rm)], opcode, [Regs(reg, rm)]);
  }

  lemma WidenCode(dst: Reg, src: Reg)
    ensures Encode(WidenRR(Imul, dst, src)) == [RexW(dst, 0, src), 0x0F, 0xAF, Regs(dst, src)]
    ensures Encode(WidenRR(Movzx, dst, src)) == [RexW(dst, 0, src), 0x0F, 0xB6, Regs(dst, src)]
  {
    WideEscapedRegs(WidenRR(Imul, dst, src), 0xAF, dst, src);
    WideEscapedRegs(WidenRR(Movzx, dst, src), 0xB6, dst, src);
  }

  lemma Short(i: Instr, rex: Option<Rex>, opcode: byte, imm: bytes)
    requires Fields(i) == Legacy(None, rex, false, opcode, None, imm)
    ensures Encode(i) == RexBytes(rex) + [opcode] + imm
  {
    PlainLayout(i, rex, opcode, None, imm);
  }

  lemma MovImm64Code(dst: Reg, imm: i64)
    ensures Encode(MovImm64(dst, imm)) == [RexW(0, 0, dst), 0xB8 + dst % 8] + Bytes64(imm)
  {
    Short(MovImm64(dst, imm), RexIf(true, false, false, dst >= 8), 0xB8 + dst % 8, Bytes64(imm));
    RexWIs(0, 0, dst);
  }

  lemma StackCode(reg: Reg)
    ensures Encode(Push(reg)) == RexOpt(0, reg) + [0x50 + reg % 8]
    ensures Encode(Pop(reg)) == RexOpt(0, reg) + [0x58 + reg % 8]
  {
    Short(Push(reg), RexIf(false, false, false, reg >= 8), 0x50 + reg % 8, []);
    Short(Pop(reg), RexIf(false, false, false, reg >= 8), 0x58 + reg % 8, []);
    RexOptIs(0, reg);
  }

  lemma BareCode()
    ensures Encode(Ret) == [0xC3] && Encode(Nop) == [0x90] && Encode(Int3) == [0xCC] && Encode(Cqo) == [0x48, 0x99]
  {
    Short(Ret, None, 0xC3, []);
    Short(Nop, None, 0x90, []);
    Short(Int3, None, 0xCC, []);
    Short(Cqo, RexIf(true, false, false, false), 0x99, []);
    RexWIs(0, 0, 0);
  }

  lemma SetCcCode(cc: Reg, reg: Reg)
    ensures Encode(SetCc(cc, reg)) == [0x40 + reg / 8, 0x0F, 0x90 + cc, Regs(0, reg)]
  {
    EscapedLayout(SetCc(cc, reg), None, Some(Rex(false, false, false, reg >= 8)), 0x90 + cc, RegForm(0, reg));
    RegsIs(0, reg);
  }

  lemma CallRegCode(reg: Reg)
    ensures Encode(CallReg(reg)) == RexOpt(0, reg) + [0xFF, Regs(2, reg)]
  {
    PlainLayout(CallReg(reg), RexIf(false, false, false, reg >= 8), 0xFF, RegForm(2, reg), []);
    RexOptIs(0, reg);
    RegsIs(2, reg);
  }

  lemma BranchCode(cc: Reg, rel: i32)
    ensures Encode(Jmp(rel)) == [0xE9] + Word(rel) && Encode(Call(rel)) == [0xE8] + Word(rel)
    ensures Encode(Jcc(cc, rel)) == [0x0F, 0x80 + cc] + Word(rel)
  {
    BranchEndsInRel(cc, rel);
  }

  // ----- Memory -----

  lemma GprMemCode(op: MemOp, reg: Reg, base: Reg, disp: i32, opcode: byte)
    requires opcode == match op case Load => 0x8B case Store => 0x89 case Lea => 0x8D case AddM => 0x03 case SubM => 0x2B case CmpM => 0x3B
    ensures Encode(GprMem(op, reg, base, disp)) == [RexW(reg, 0, base), opcode] + Mem(reg, base, disp)
  {
    PlainLayout(GprMem(op, reg, base, disp), RexIf(true, reg >= 8, false, base >= 8), opcode, MemForm(reg, base, disp), []);
    RexWIs(reg, 0, base);
    MemIs(reg, base, disp);
    PlainRow([RexW(reg, 0, base)], opcode, Mem(reg, base, disp));
  }

  lemma Load32Code(reg: Reg, base: Reg, disp: i32)
    ensures Encode(Load32(reg, base, disp)) == RexOpt(reg, base) + [0x8B] + Mem(reg, base, disp)
  {
    PlainLayout(Load32(reg, base, disp), RexIf(false, reg >= 8, false, base >= 8), 0x8B, MemForm(reg, base, disp), []);
    RexOptIs(reg, base);
    MemIs(reg, base, disp);
    PlainRow(RexOpt(reg, base), 0x8B, Mem(reg, base, disp));
  }

  lemma IndexedCode(store: bool, reg: Reg, base: Reg, index: Reg, scale: nat, disp: i32, bits: nat)
    requires index != RSP && bits < 4 && scale == (match bits case 0 => 1 case 1 => 2 case 2 => 4 case _ => 8)
    ensures Encode(Indexed(store, reg, base, index, scale, disp)) ==
            [RexW(reg, index, base)] + [if store then 0x89 else 0x8B] + ([0x84 + 8 * (reg % 8)] + [bits * 64 + 8 * (index % 8) + base % 8] + Word(disp))
  {
    var i, rex, operand := Indexed(store, reg, base, index, scale, disp), RexIf(true, reg >= 8, index >= 8, base >= 8),
                           IndexedForm(reg, base, index, scale, disp);
    PlainLayout(i, rex, if store then 0x89 else 0x8B, operand, []);
    RexWIs(reg, index, base);
    IndexedIs(reg, base, index, scale, disp, bits);
    PlainRow([RexW(reg, index, base)], if store then 0x89 else 0x8B, OperandBytes(operand));
  }

  lemma IndexedIs(reg: Reg, base: Reg, index: Reg, scale: nat, disp: i32, bits: nat)
    requires bits < 4 && scale == (match bits case 0 => 1 case 1 => 2 case 2 => 4 case _ => 8)
    ensures OperandBytes(IndexedForm(reg, base, index, scale, disp)) ==
            [0x84 + 8 * (reg % 8)] + [bits * 64 + 8 * (index % 8) + base % 8] + Word(disp)
  {
    IndexedFormBytes([], reg, base, index, scale, disp);
    AfterNothing([ModRMByte(2, reg % 8, 4)], [ScaleBits(scale) * 64 + (index % 8) * 8 + base % 8], Word(disp),
                 OperandBytes(IndexedForm(reg, base, index, scale, disp)));
    LowBits(reg, 4);
  }

  // ----- Vector registers -----

  lemma SseCode(op: SseOp, reg: Reg, rm: Reg, prefix: byte, wide: bool, opcode: byte)
    requires (prefix, wide, opcode) == match op
      case Movsd => (0xF2, false, 0x10) case Addsd => (0xF2, false, 0x58) case Subsd => (0xF2, false, 0x5C)
      case Mulsd => (0xF2, false, 0x59) case Divsd => (0xF2, false, 0x5E) case Sqrtsd => (0xF2, false, 0x51)
      case Xorpd => (0x66, false, 0x57) case Ucomisd => (0x66, false, 0x2E)
      case Cvtsi2sd => (0xF2, true, 0x2A) case Cvttsd2si => (0xF2, true, 0x2C)
      case MovqIn => (0x66, true, 0x6E) case MovqOut => (0x66, true, 0x7E)
    ensures Encode(SseRR(op, reg, rm)) == [prefix] + (if wide then [RexW(reg, 0, rm)] else RexOpt(reg, rm)) + [0x0F, opcode] + [Regs(reg, rm)]
  {
    SseTable(op);
    SseBytes(op, reg, rm);
  }

  lemma SseTable(op: SseOp)
    ensures (SsePrefix(op), SseWide(op), SseOpcode(op)) == match op
      case Movsd => (0xF2, false, 0x10) case Addsd => (0xF2, false, 0x58) case Subsd => (0xF2, false, 0x5C)
      case Mulsd => (0xF2, false, 0x59) case Divsd => (0xF2, false, 0x5E) case Sqrtsd => (0xF2, false, 0x51)
      case Xorpd => (0x66, false, 0x57) case Ucomisd => (0x66, false, 0x2E)
      case Cvtsi2sd => (0xF2, true, 0x2A) case Cvttsd2si => (0xF2, true, 0x2C)
      case MovqIn => (0x66, true, 0x6E) case MovqOut => (0x66, true, 0x7E)
  {
  }

  lemma SseBytes(op: SseOp, reg: Reg, rm: Reg)
    ensures Encode(SseRR(op, reg, rm)) ==
            [SsePrefix(op)] + (if SseWide(op) then [RexW(reg, 0, rm)] else RexOpt(reg, rm)) + [0x0F, SseOpcode(op)] + [Regs(reg, rm)]
  {
    var rex := RexIf(SseWide(op), reg >= 8, false, rm >= 8);
    EscapedLayout(SseRR(op, reg, rm), Some(SsePrefix(op)), rex, SseOpcode(op), RegForm(reg, rm));
    if SseWide(op) { RexWIs(reg, 0, rm); } else { RexOptIs(reg, rm); }
    RegsIs(reg, rm);
    EscapedRow([SsePrefix(op)], RexBytes(rex), SseOpcode(op), [Regs(reg, rm)]);
  }

  lemma SseMemCode(op: SseMemOp, reg: Reg, base: Reg, disp: i32, prefix: bytes, opcode: byte)
    requires (prefix, opcode) == match op
      case MovsdLoad => ([0xF2], 0x10) case MovsdStore => ([0xF2], 0x11) case MovapsLoad => ([], 0x28) case MovapsStore => ([], 0x29)
    ensures Encode(SseMem(op, reg, base, disp)) == prefix + RexOpt(reg, base) + [0x0F, opcode] + Mem(reg, base, disp)
  {
    assert PrefixBytes(SseMemPrefix(op)) == prefix && SseMemOpcode(op) == opcode;
    SseMemBytes(op, reg, base, disp);
  }

  lemma SseMemBytes(op: SseMemOp, reg: Reg, base: Reg, disp: i32)
    ensures Encode(SseMem(op, reg, base, disp)) ==
            PrefixBytes(SseMemPrefix(op)) + RexOpt(reg, base) + [0x0F, SseMemOpcode(op)] + Mem(reg, base, disp)
  {
    EscapedLayout(SseMem(op, reg, base, disp), SseMemPrefix(op), RexIf(false, reg >= 8, false, base >= 8), SseMemOpcode(op), MemForm(reg, base, disp));
    RexOptIs(reg, base);
    MemIs(reg, base, disp);
    EscapedRow(PrefixBytes(SseMemPrefix(op)), RexOpt(reg, base), SseMemOpcode(op), Mem(reg, base, disp));
  }

  /** Three-byte VEX: the register extensions and the second operand are stored inverted. */
  function Vex3(w: bool, reg: Reg, vvvv: Reg, rm: Reg, pp: nat, opcode: byte): bytes
    requires pp < 4
  {
    [0xC4, 0xE1 - 0x80 * (reg / 8) - 0x20 * (rm / 8), (if w then 0x80 else 0) + (15 - vvvv) * 8 + pp, opcode, Regs(reg, rm)]
  }

  lemma VexIs(i: Instr, w: bool, reg: Reg, vvvv: Reg, rm: Reg, pp: nat, opcode: byte)
    requires Fields(i) == VexForm(w, reg, vvvv, rm, pp, opcode) && pp < 4
    ensures Encode(i) == Vex3(w, reg, vvvv, rm, pp, opcode)
  {
    VexDone([], i, w, reg, vvvv, rm, pp, opcode);
    AfterNothing(VexBytes(false, Rex(w, reg >= 8, false, rm >= 8), 1, vvvv, false, pp), [opcode], OperandBytes(RegForm(reg, rm)), Encode(i));
    VexHead(w, reg, vvvv, rm, pp);
    RegsIs(reg, rm);
  }

  lemma VexHead(w: bool, reg: Reg, vvvv: Reg, rm: Reg, pp: nat)
    requires pp < 4
    ensures VexBytes(false, Rex(w, reg >= 8, false, rm >= 8), 1, vvvv, false, pp) ==
            [0xC4, 0xE1 - 0x80 * (reg / 8) - 0x20 * (rm / 8), (if w then 0x80 else 0) + (15 - vvvv) * 8 + pp]
  {
  }

  lemma VexCode(op: VexOp, dst: Reg, first: Reg, second: Reg, opcode: byte)
    requires opcode == match op case Vaddsd => 0x58 case Vsubsd => 0x5C case Vmulsd => 0x59 case Vdivsd => 0x5E case Vmovsd => 0x10
    ensures Encode(VexRRR(op, dst, first, second)) == Vex3(false, dst, first, second, 3, opcode)
  {
    VexIs(VexRRR(op, dst, first, second), false, dst, first, second, 3, opcode);
  }

  lemma VexPairCode(dst: Reg, src: Reg)
    ensures Encode(VMovq(dst, src)) == Vex3(true, dst, 0, src, 1, 0x6E)
    ensures Encode(VUcomisd(dst, src)) == Vex3(false, dst, 0, src, 1, 0x2E)
    ensures Encode(VZeroUpper) == [0xC5, 0xF8, 0x77]
  {
    VexIs(VMovq(dst, src), true, dst, 0, src, 1, 0x6E);
    VexIs(VUcomisd(dst, src), false, dst, 0, src, 1, 0x2E);
    VZeroUpperCode();
  }

  lemma VZeroUpperCode()
    ensures Encode(VZeroUpper) == [0xC5, 0xF8, 0x77]
  {
    FieldsAreWf(VZeroUpper);
  }
}
