/**
 The emitter of crates/cv_asm/src/lib.rs: every method appends the bytes of one instruction to
 the code buffer, or writes a displacement over four bytes of it.  Methods that differ only in
 an opcode are one method here, with the operation as an argument.
 */
module Emitter {
  import opened Common
  import opened Wire
  import opened X86
  import opened CodeStream
  import opened Assembler

  lemma Reassociate(code: bytes, a: bytes, b: bytes, c: bytes, d: bytes)
    ensures code + a + b + c + d == code + (a + (b + (c + d)))
  {
  }

  lemma ReassociateFive(code: bytes, a: bytes, b: bytes, c: bytes, d: bytes, e: bytes)
    ensures code + a + b + c + d + e == code + (a + (b + (c + (d + e))))
  {
    Reassociate(code, a, b, c, d);
    Reassociate(code, a, b, c, d + e);
  }

  /** An instruction without prefix and escape, part after part. */
  lemma PlainDone(code: bytes, i: Instr, rex: Option<Rex>, opcode: byte, modrm: Option<ModRM>, imm: bytes)
    requires Fields(i) == Legacy(None, rex, false, opcode, modrm, imm)
    ensures code + RexBytes(rex) + [opcode] + OperandBytes(modrm) + imm == code + Encode(i)
  {
    Reassociate(code, RexBytes(rex), [opcode], OperandBytes(modrm), imm);
    PlainLayout(i, rex, opcode, modrm, imm);
  }

  lemma PlainLayout(i: Instr, rex: Option<Rex>, opcode: byte, modrm: Option<ModRM>, imm: bytes)
    requires Fields(i) == Legacy(None, rex, false, opcode, modrm, imm)
    ensures Encode(i) == RexBytes(rex) + ([opcode] + (OperandBytes(modrm) + imm))
  {
    FieldsAreWf(i);
    LayoutPlain(rex, opcode, modrm, imm);
  }

  lemma LayoutPlain(rex: Option<Rex>, opcode: byte, modrm: Option<ModRM>, imm: bytes)
    requires WfRaw(Legacy(None, rex, false, opcode, modrm, imm))
    ensures Layout(Legacy(None, rex, false, opcode, modrm, imm)) == RexBytes(rex) + ([opcode] + (OperandBytes(modrm) + imm))
  {
    var tail := [opcode] + (OperandBytes(modrm) + imm);
    assert [] + tail == tail;
    assert [] + (RexBytes(rex) + tail) == RexBytes(rex) + tail;
  }

  /** An instruction with an escape byte and no immediate. */
  lemma EscapedDone(code: bytes, i: Instr, prefix: Option<byte>, rex: Option<Rex>, opcode: byte, modrm: Option<ModRM>)
    requires Fields(i) == Legacy(prefix, rex, true, opcode, modrm, [])
    ensures code + PrefixBytes(prefix) + RexBytes(rex) + [0x0F] + [opcode] + OperandBytes(modrm) == code + Encode(i)
  {
    EscapedLayout(i, prefix, rex, opcode, modrm);
    ReassociateFive(code, PrefixBytes(prefix), RexBytes(rex), [0x0F], [opcode], OperandBytes(modrm));
  }

  lemma EscapedLayout(i: Instr, prefix: Option<byte>, rex: Option<Rex>, opcode: byte, modrm: Option<ModRM>)
    requires Fields(i) == Legacy(prefix, rex, true, opcode, modrm, [])
    ensures Encode(i) == PrefixBytes(prefix) + (RexBytes(rex) + ([0x0F] + ([opcode] + OperandBytes(modrm))))
  {
    FieldsAreWf(i);
    assert OperandBytes(modrm) + [] == OperandBytes(modrm);
  }

  /** A three-byte VEX instruction between registers. */
  lemma VexDone(code: bytes, i: Instr, w: bool, reg: Reg, vvvv: Reg, rm: Reg, pp: nat, opcode: byte)
    requires Fields(i) == VexForm(w, reg, vvvv, rm, pp, opcode) && pp < 4
    ensures code + VexBytes(false, Rex(w, reg >= 8, false, rm >= 8), 1, vvvv, false, pp) + [opcode] + OperandBytes(RegForm(reg, rm))
         == code + Encode(i)
  {
    FieldsAreWf(i);
    var v, tail := VexBytes(false, Rex(w, reg >= 8, false, rm >= 8), 1, vvvv, false, pp), OperandBytes(RegForm(reg, rm));
    Reassociate(code, [], v, [opcode], tail);
    assert code + [] == code && [] + (v + ([opcode] + tail)) == v + ([opcode] + tail);
  }

  lemma IndexedDone(code: bytes, store: bool, reg: Reg, base: Reg, index: Reg, scale: nat, disp: i32)
    requires index != RSP && IsScale(scale)
    ensures code + RexBytes(RexIf(true, reg >= 8, index >= 8, base >= 8)) + [if store then 0x89 else 0x8B]
                 + OperandBytes(IndexedForm(reg, base, index, scale, disp))
         == code + Encode(Indexed(store, reg, base, index, scale, disp))
  {
    PlainDone(code, Indexed(store, reg, base, index, scale, disp), RexIf(true, reg >= 8, index >= 8, base >= 8),
              if store then 0x89 else 0x8B, IndexedForm(reg, base, index, scale, disp), []);
  }

  lemma SetCcDone(code: bytes, cc: Reg, reg: Reg)
    ensures code + [if reg >= 8 then 0x41 else 0x40] + [0x0F] + [0x90 + cc] + OperandBytes(RegForm(0, reg))
         == code + Encode(SetCc(cc, reg))
  {
    var rex := Rex(false, false, false, reg >= 8);
    assert code + PrefixBytes(None) == code;
    assert RexBytes(Some(rex)) == [if reg >= 8 then 0x41 else 0x40];
    EscapedDone(code, SetCc(cc, reg), None, Some(rex), 0x90 + cc, RegForm(0, reg));
  }

  lemma WidenDone(code: bytes, op: Widen, dst: Reg, src: Reg)
    ensures code + RexBytes(RexIf(true, dst >= 8, false, src >= 8)) + (if op == Movsxd then [] else [0x0F]) + [WidenOpcode(op)]
                 + OperandBytes(RegForm(dst, src))
         == code + Encode(WidenRR(op, dst, src))
  {
    var rex := RexIf(true, dst >= 8, false, src >= 8);
    if op == Movsxd {
      assert code + RexBytes(rex) + [] == code + RexBytes(rex);
      PlainDone(code, WidenRR(op, dst, src), rex, 0x63, RegForm(dst, src), []);
    } else {
      assert code + PrefixBytes(None) == code;
      EscapedDone(code, WidenRR(op, dst, src), None, rex, WidenOpcode(op), RegForm(dst, src));
    }
  }

  lemma SseDone(code: bytes, op: SseOp, reg: Reg, rm: Reg)
    ensures code + [SsePrefix(op)] + RexBytes(RexIf(SseWide(op), reg >= 8, false, rm >= 8)) + [0x0F] + [SseOpcode(op)]
                 + OperandBytes(RegForm(reg, rm))
         == code + Encode(SseRR(op, reg, rm))
  {
    assert PrefixBytes(Some(SsePrefix(op))) == [SsePrefix(op)];
    EscapedDone(code, SseRR(op, reg, rm), Some(SsePrefix(op)), RexIf(SseWide(op), reg >= 8, false, rm >= 8), SseOpcode(op), RegForm(reg, rm));
  }

  lemma SseMemDone(code: bytes, op: SseMemOp, reg: Reg, base: Reg, disp: i32)
    ensures code + PrefixBytes(SseMemPrefix(op)) + RexBytes(RexIf(false, reg >= 8, false, base >= 8)) + [0x0F] + [SseMemOpcode(op)]
                 + OperandBytes(MemForm(reg, base, disp))
         == code + Encode(SseMem(op, reg, base, disp))
  {
    EscapedDone(code, SseMem(op, reg, base, disp), SseMemPrefix(op), RexIf(false, reg >= 8, false, base >= 8), SseMemOpcode(op),
                MemForm(reg, base, disp));
  }

  lemma MemFormBytes(code: bytes, reg: nat, base: nat, disp: i32)
    ensures code + [ModRMByte(2, reg % 8, base % 8)] + (if base % 8 == 4 then [36] else []) + Word(disp)
         == code + OperandBytes(MemForm(reg, base, disp))
  {
    var m := MemForm(reg, base, disp).value;
    assert SibByte(Sib(0, 4, 4)) == 36;
    assert SibBytes(m.sib) == if base % 8 == 4 then [36] else [];
    assert ModRMByte(2, reg % 8 % 8, base % 8 % 8) == ModRMByte(2, reg % 8, base % 8);
  }

  lemma IndexedFormBytes(code: bytes, reg: nat, base: nat, index: nat, scale: nat, disp: i32)
    requires IsScale(scale)
    ensures code + [ModRMByte(2, reg % 8, 4)] + [ScaleBits(scale) * 64 + (index % 8) * 8 + base % 8] + Word(disp)
         == code + OperandBytes(IndexedForm(reg, base, index, scale, disp))
  {
    SibByteIs(ScaleBits(scale), index, base);
  }

  lemma SibByteIs(bits: nat, index: nat, base: nat)
    requires bits < 4
    ensures SibByte(Sib(bits, index % 8, base % 8)) == bits * 64 + (index % 8) * 8 + base % 8
  {
  }

  // ----- Stack slots -----

  /** A slot is addressed at eight times its number exactly if that has 31 bits; beyond, slots
      2^29 apart share an address. */
  lemma SlotAddressIff(slot: nat, other: nat)
    ensures Wrap(slot * 8) == slot * 8 <==> slot < 0x1000_0000
    ensures Wrap(slot * 8) == Wrap(other * 8) <==> (slot - other) % 0x2000_0000 == 0
  {
    var p := WrapCongruent(slot * 8);
    var q := WrapCongruent(other * 8);
    if Wrap(slot * 8) == Wrap(other * 8) {
      assert slot - other == (q - p) * 0x2000_0000;
    }
    if (slot - other) % 0x2000_0000 == 0 {
      var k := (slot - other) / 0x2000_0000;
      assert slot * 8 == other * 8 + k * 0x1_0000_0000;
      assert Wrap(slot * 8) - Wrap(other * 8) == (p - q + k) * 0x1_0000_0000;
    }
  }

  class Emitter {
    var code: bytes
    ghost var prog: seq<Instr>
    ghost var targets: map<nat, nat>

    /** The code, the instructions emitted, and the targets that branches were patched to. */
    ghost function Value(): State<Instr> reads this { State(code, prog, targets) }

    /** The code consists of the instructions and every patched branch leads to its target. */
    ghost predicate Valid() reads this { Inv(X64(), Value()) }

    /** One instruction was appended; nothing else changed. */
    twostate predicate Did(i: Instr)
      reads this
    {
      && code == old(code) + Encode(i) && prog == old(prog) + [i] && targets == old(targets)
      && (old(Valid()) ==> Valid())
    }

    constructor ()
      ensures code == [] && prog == [] && targets == map[] && Valid()
    {
      code, prog, targets := [], [], map[];
    }

    ghost method Record(i: Instr, before: bytes)
      requires Encodable(i) && code == before + Encode(i)
      modifies this`prog
      ensures prog == old(prog) + [i]
      ensures Inv(X64(), State(before, old(prog), targets)) ==> Valid()
    {
      if Inv(X64(), State(before, prog, targets)) {
        X64IsLawful();
        EmitKeeps(X64(), State(before, prog, targets), i);
      }
      prog := prog + [i];
    }

    // ----- Parts of an instruction -----

    /** A REX prefix, left out if no bit is set. */
    method PutRex(w: bool, r: bool, x: bool, b: bool)
      modifies this`code
      ensures code == old(code) + RexBytes(RexIf(w, r, x, b))
    {
      var bits: byte := 0x40;
      if w { bits := bits + 0x08; }
      if r { bits := bits + 0x04; }
      if x { bits := bits + 0x02; }
      if b { bits := bits + 0x01; }
      if bits != 0x40 { code := code + [bits]; }
    }

    method PutModRM(mod: nat, reg: nat, rm: nat)
      modifies this`code
      ensures code == old(code) + [ModRMByte(mod, reg, rm)]
    {
      code := code + [(mod % 4) * 64 + (reg % 8) * 8 + rm % 8];
    }

    method PutRegForm(reg: nat, rm: nat)
      modifies this`code
      ensures code == old(code) + OperandBytes(RegForm(reg, rm))
    {
      PutModRM(3, reg % 8, rm % 8);
    }

    /** Base plus 32-bit displacement, with a SIB byte for a base ending in 100. */
    method PutMemForm(reg: nat, base: nat, disp: i32)
      modifies this`code
      ensures code == old(code) + OperandBytes(MemForm(reg, base, disp))
    {
      var low := base % 8;
      PutModRM(2, reg % 8, low);
      if low == 4 { code := code + [4 * 8 + low]; }
      assert code == old(code) + [ModRMByte(2, reg % 8, low)] + if low == 4 then [36] else [];
      code := code + Word(disp);
      MemFormBytes(old(code), reg, base, disp);
    }

    method PutIndexedForm(reg: nat, base: nat, index: nat, scale: nat, disp: i32)
      requires IsScale(scale)
      modifies this`code
      ensures code == old(code) + OperandBytes(IndexedForm(reg, base, index, scale, disp))
    {
      var bits := match scale case 1 => 0 case 2 => 1 case 4 => 2 case _ => 3;
      PutModRM(2, reg % 8, 4);
      SibByteIs(bits, index, base);
      var sib: byte := bits * 64 + (index % 8) * 8 + base % 8;
      code := code + [sib];
      code := code + Word(disp);
      IndexedFormBytes(old(code), reg, base, index, scale, disp);
    }

    // ----- General registers -----

    method EmitAlu(op: Alu, dst: Reg, src: Reg)
      modifies this
      ensures Did(AluRR(op, dst, src))
    {
      PutRex(true, src >= 8, false, dst >= 8);
      code := code + [AluOpcode(op)];
      PutRegForm(src, dst);
      PlainDone(old(code), AluRR(op, dst, src), RexIf(true, src >= 8, false, dst >= 8), AluOpcode(op), RegForm(src, dst), []);
      Record(AluRR(op, dst, src), old(code));
    }

    method EmitWiden(op: Widen, dst: Reg, src: Reg)
      modifies this
      ensures Did(WidenRR(op, dst, src))
    {
      PutRex(true, dst >= 8, false, src >= 8);
      if op != Movsxd { code := code + [0x0F]; }
      assert code == old(code) + RexBytes(RexIf(true, dst >= 8, false, src >= 8)) + if op == Movsxd then [] else [0x0F];
      code := code + [WidenOpcode(op)];
      PutRegForm(dst, src);
      WidenDone(old(code), op, dst, src);
      Record(WidenRR(op, dst, src), old(code));
    }

    method EmitImm(op: ImmOp, dst: Reg, imm: i32)
      modifies this
      ensures Did(WithImm(op, dst, imm))
    {
      PutRex(true, false, false, dst >= 8);
      code := code + [ImmOpcode(op)];
      PutRegForm(ImmExtension(op), dst);
      code := code + Word(imm);
      PlainDone(old(code), WithImm(op, dst, imm), RexIf(true, false, false, dst >= 8), ImmOpcode(op), RegForm(ImmExtension(op), dst), Word(imm));
      Record(WithImm(op, dst, imm), old(code));
    }

    method EmitMovImm64(dst: Reg, imm: i64)
      modifies this
      ensures Did(MovImm64(dst, imm))
    {
      PutRex(true, false, false, dst >= 8);
      code := code + [0xB8 + dst % 8];
      code := code + Bytes64(imm);
      PlainDone(old(code), MovImm64(dst, imm), RexIf(true, false, false, dst >= 8), 0xB8 + dst % 8, None, Bytes64(imm));
      Record(MovImm64(dst, imm), old(code));
    }

    method EmitShift(op: ShiftOp, dst: Reg, count: byte)
      modifies this
      ensures Did(Shift(op, dst, count))
    {
      PutRex(true, false, false, dst >= 8);
      code := code + [0xC1];
      PutRegForm(ShiftExtension(op), dst);
      code := code + [count];
      PlainDone(old(code), Shift(op, dst, count), RexIf(true, false, false, dst >= 8), 0xC1, RegForm(ShiftExtension(op), dst), [count]);
      Record(Shift(op, dst, count), old(code));
    }

    method EmitUnary(op: UnaryOp, dst: Reg)
      modifies this
      ensures Did(Unary(op, dst))
    {
      PutRex(true, false, false, dst >= 8);
      code := code + [0xF7];
      PutRegForm(UnaryExtension(op), dst);
      PlainDone(old(code), Unary(op, dst), RexIf(true, false, false, dst >= 8), 0xF7, RegForm(UnaryExtension(op), dst), []);
      Record(Unary(op, dst), old(code));
    }

    method EmitCqo()
      modifies this
      ensures Did(Cqo)
    {
      PutRex(true, false, false, false);
      code := code + [0x99];
      PlainDone(old(code), Cqo, RexIf(true, false, false, false), 0x99, None, []);
      Record(Cqo, old(code));
    }

    method EmitPush(reg: Reg)
      modifies this
      ensures Did(Push(reg))
    {
      if reg >= 8 { code := code + [0x41]; }
      code := code + [0x50 + reg % 8];
      PlainDone(old(code), Push(reg), RexIf(false, false, false, reg >= 8), 0x50 + reg % 8, None, []);
      Record(Push(reg), old(code));
    }

    method EmitPop(reg: Reg)
      modifies this
      ensures Did(Pop(reg))
    {
      if reg >= 8 { code := code + [0x41]; }
      code := code + [0x58 + reg % 8];
      PlainDone(old(code), Pop(reg), RexIf(false, false, false, reg >= 8), 0x58 + reg % 8, None, []);
      Record(Pop(reg), old(code));
    }

    /** `ret`, `nop` and `int3`. */
    method EmitBare(i: Instr)
      requires i.Ret? || i.Nop? || i.Int3?
      modifies this
      ensures Did(i)
    {
      var opcode: byte := if i.Ret? then 0xC3 else if i.Nop? then 0x90 else 0xCC;
      code := code + [opcode];
      PlainDone(old(code), i, None, opcode, None, []);
      Record(i, old(code));
    }

    /** The byte register is unambiguous because a REX prefix is always there. */
    method EmitSetCc(cc: Reg, reg: Reg)
      modifies this
      ensures Did(SetCc(cc, reg))
    {
      code := code + [if reg >= 8 then 0x41 else 0x40];
      code := code + [0x0F];
      code := code + [0x90 + cc];
      PutRegForm(0, reg);
      SetCcDone(old(code), cc, reg);
      Record(SetCc(cc, reg), old(code));
    }

    // ----- Memory -----

    method EmitGprMem(op: MemOp, reg: Reg, base: Reg, disp: i32)
      modifies this
      ensures Did(GprMem(op, reg, base, disp))
    {
      PutRex(true, reg >= 8, false, base >= 8);
      code := code + [MemOpcode(op)];
      PutMemForm(reg, base, disp);
      PlainDone(old(code), GprMem(op, reg, base, disp), RexIf(true, reg >= 8, false, base >= 8), MemOpcode(op), MemForm(reg, base, disp), []);
      Record(GprMem(op, reg, base, disp), old(code));
    }

    method EmitLoad32(reg: Reg, base: Reg, disp: i32)
      modifies this
      ensures Did(Load32(reg, base, disp))
    {
      PutRex(false, reg >= 8, false, base >= 8);
      code := code + [0x8B];
      PutMemForm(reg, base, disp);
      PlainDone(old(code), Load32(reg, base, disp), RexIf(false, reg >= 8, false, base >= 8), 0x8B, MemForm(reg, base, disp), []);
      Record(Load32(reg, base, disp), old(code));
    }

    /** RSP as an index and other scales are refused by a panic. */
    method EmitIndexed(store: bool, reg: Reg, base: Reg, index: Reg, scale: nat, disp: i32)
      requires index != RSP && IsScale(scale)
      modifies this
      ensures Did(Indexed(store, reg, base, index, scale, disp))
    {
      PutIndexed(store, reg, base, index, scale, disp);
      Record(Indexed(store, reg, base, index, scale, disp), old(code));
    }

    method PutIndexed(store: bool, reg: Reg, base: Reg, index: Reg, scale: nat, disp: i32)
      requires index != RSP && IsScale(scale)
      modifies this`code
      ensures code == old(code) + Encode(Indexed(store, reg, base, index, scale, disp))
    {
      PutRex(true, reg >= 8, index >= 8, base >= 8);
      code := code + [if store then 0x89 else 0x8B];
      PutIndexedForm(reg, base, index, scale, disp);
      IndexedDone(old(code), store, reg, base, index, scale, disp);
    }

    method EmitSpill(frameBase: Reg, slot: nat, reg: Reg)
      modifies this
      ensures Did(GprMem(Store, reg, frameBase, Wrap(slot * 8)))
    {
      EmitGprMem(Store, reg, frameBase, Wrap(slot * 8));
    }

    method EmitReload(reg: Reg, frameBase: Reg, slot: nat)
      modifies this
      ensures Did(GprMem(Load, reg, frameBase, Wrap(slot * 8)))
    {
      EmitGprMem(Load, reg, frameBase, Wrap(slot * 8));
    }

    // ----- SSE and AVX -----

    method EmitSse(op: SseOp, reg: Reg, rm: Reg)
      modifies this
      ensures Did(SseRR(op, reg, rm))
    {
      code := code + [SsePrefix(op)];
      PutRex(SseWide(op), reg >= 8, false, rm >= 8);
      code := code + [0x0F];
      code := code + [SseOpcode(op)];
      PutRegForm(reg, rm);
      SseDone(old(code), op, reg, rm);
      Record(SseRR(op, reg, rm), old(code));
    }

    method EmitSseMem(op: SseMemOp, reg: Reg, base: Reg, disp: i32)
      modifies this
      ensures Did(SseMem(op, reg, base, disp))
    {
      if op.MovsdLoad? || op.MovsdStore? { code := code + [0xF2]; }
      assert code == old(code) + PrefixBytes(SseMemPrefix(op));
      PutRex(false, reg >= 8, false, base >= 8);
      code := code + [0x0F];
      code := code + [SseMemOpcode(op)];
      PutMemForm(reg, base, disp);
      SseMemDone(old(code), op, reg, base, disp);
      Record(SseMem(op, reg, base, disp), old(code));
    }

    /** Three-byte VEX with inverted extension bits and an inverted second operand. */
    method PutVex(w: bool, reg: Reg, vvvv: Reg, rm: Reg, pp: nat, opcode: byte)
      requires pp < 4
      modifies this`code
      ensures code == old(code) + VexBytes(false, Rex(w, reg >= 8, false, rm >= 8), 1, vvvv, false, pp) + [opcode] + OperandBytes(RegForm(reg, rm))
    {
      var r, x, b := reg < 8, true, rm < 8;
      var second: byte := 128 * Bit(r) + 64 * Bit(x) + 32 * Bit(b) + 1;
      var third: byte := 128 * Bit(w) + (15 - vvvv) * 8 + pp;
      code := code + [0xC4];
      code := code + [second];
      code := code + [third];
      assert code == old(code) + VexBytes(false, Rex(w, reg >= 8, false, rm >= 8), 1, vvvv, false, pp);
      code := code + [opcode];
      PutRegForm(reg, rm);
    }

    method EmitVex(op: VexOp, dst: Reg, first: Reg, second: Reg)
      modifies this
      ensures Did(VexRRR(op, dst, first, second))
    {
      PutVex(false, dst, first, second, 3, VexOpcode(op));
      VexDone(old(code), VexRRR(op, dst, first, second), false, dst, first, second, 3, VexOpcode(op));
      Record(VexRRR(op, dst, first, second), old(code));
    }

    method EmitVMovq(dst: Reg, src: Reg)
      modifies this
      ensures Did(VMovq(dst, src))
    {
      PutVex(true, dst, 0, src, 1, 0x6E);
      VexDone(old(code), VMovq(dst, src), true, dst, 0, src, 1, 0x6E);
      Record(VMovq(dst, src), old(code));
    }

    method EmitVUcomisd(a: Reg, b: Reg)
      modifies this
      ensures Did(VUcomisd(a, b))
    {
      PutVex(false, a, 0, b, 1, 0x2E);
      VexDone(old(code), VUcomisd(a, b), false, a, 0, b, 1, 0x2E);
      Record(VUcomisd(a, b), old(code));
    }

    method EmitVZeroUpper()
      modifies this
      ensures Did(VZeroUpper)
    {
      code := code + [0xC5];
      code := code + [0xF8];
      code := code + [0x77];
      assert Encode(VZeroUpper) == [0xC5, 0xF8, 0x77];
      Record(VZeroUpper, old(code));
    }

    // ----- Branches -----

    method EmitCallReg(reg: Reg)
      modifies this
      ensures Did(CallReg(reg))
    {
      if reg >= 8 { code := code + [0x41]; }
      assert code == old(code) + RexBytes(RexIf(false, false, false, reg >= 8));
      code := code + [0xFF];
      PutRegForm(2, reg);
      PlainDone(old(code), CallReg(reg), RexIf(false, false, false, reg >= 8), 0xFF, RegForm(2, reg), []);
      Record(CallReg(reg), old(code));
    }

    /** Placeholders for `jmp`, `call` and `jcc`; the result is where the displacement stands. */
    method EmitBranch(i: Instr) returns (off: nat)
      requires IsBranch(i) && i.rel == 0
      modifies this
      ensures Did(i) && off + 4 == |code| && (Valid() ==> BranchAt(prog, off, |prog| - 1))
    {
      if i.Jcc? {
        code := code + [0x0F];
        code := code + [0x80 + i.cc];
      } else {
        code := code + [if i.Jmp? then 0xE9 else 0xE8];
      }
      off := |code|;
      code := code + [0, 0, 0, 0];
      BranchBytes(old(code), i);
      Record(i, old(code));
      assert prog[..|prog|] == prog;
    }

    /** Lets the branch with its displacement at `off` lead to the end of the code. */
    method PatchRel32(off: nat, ghost k: nat)
      requires off + 4 <= |code|
      modifies this
      ensures code == Overwrite(old(code), off, Word(Displacement(|old(code)|, off + 4)))
      ensures Repatched(off, k, |old(code)|)
    {
      PatchRel32To(off, |code|, k);
    }

    /** What a patch means for the instructions, if `off` is where branch `k` has its displacement
        and the distance has 32 bits. */
    twostate predicate Repatched(off: nat, k: nat, target: nat)
      reads this
    {
      old(Valid()) && BranchAt(old(prog), off, k) && Fits(target - (off + 4)) ==>
        && Valid() && targets == old(targets)[k := target]
        && prog == old(prog)[k := WithRel(old(prog)[k], Displacement(target, off + 4))]
    }

    method PatchRel32To(off: nat, target: nat, ghost k: nat)
      requires off + 4 <= |code|
      modifies this
      ensures code == Overwrite(old(code), off, Word(Displacement(target, off + 4)))
      ensures Repatched(off, k, target)
    {
      WriteRel(off, target);
      Repatch(off, k, target, old(code));
    }

    method WriteRel(off: nat, target: nat)
      requires off + 4 <= |code|
      modifies this`code
      ensures code == Overwrite(old(code), off, Word(Displacement(target, off + 4)))
    {
      var from := Wrap(off + 4);
      var rel := Wrap(Wrap(target) - from);
      WriteWord(off, Word(rel));
    }

    method WriteWord(off: nat, word: bytes)
      requires off + 4 <= |code| && |word| == 4
      modifies this`code
      ensures code == Overwrite(old(code), off, word)
    {
      for i := 0 to 4
        invariant |code| == |old(code)|
        invariant forall j :: 0 <= j < |code| ==> code[j] == if off <= j < off + i then word[j - off] else old(code)[j]
      {
        code := code[off + i := word[i]];
      }
    }

    ghost method Repatch(off: nat, k: nat, target: nat, before: bytes)
      requires off + 4 <= |before| && code == Overwrite(before, off, Word(Displacement(target, off + 4)))
      modifies this`prog, this`targets
      ensures Inv(X64(), State(before, old(prog), old(targets))) && BranchAt(old(prog), off, k) && Fits(target - (off + 4)) ==>
                && Valid() && targets == old(targets)[k := target]
                && prog == old(prog)[k := WithRel(old(prog)[k], Displacement(target, off + 4))]
    {
      if Inv(X64(), State(before, prog, targets)) && BranchAt(prog, off, k) && Fits(target - (off + 4)) {
        PatchStaysValid(State(before, prog, targets), off, k, target);
        prog, targets := prog[k := WithRel(prog[k], Displacement(target, off + 4))], targets[k := target];
      }
    }
  }

  /** A patch of branch `k` at its offset, in the code and in the list. */
  lemma PatchStaysValid(s: State<Instr>, off: nat, k: nat, target: nat)
    requires off + 4 <= |s.code| && Inv(X64(), s) && BranchAt(s.prog, off, k) && Fits(target - (off + 4))
    ensures var rel := Displacement(target, off + 4);
            Inv(X64(), State(Overwrite(s.code, off, Word(rel)), s.prog[k := WithRel(s.prog[k], rel)], s.targets[k := target]))
  {
    PatchedIs(s, off, k, target);
    X64IsLawful();
    PatchKeeps(X64(), s, k, target);
  }

  lemma PatchedIs(s: State<Instr>, off: nat, k: nat, target: nat)
    requires off + 4 <= |s.code| && BranchAt(s.prog, off, k)
    ensures var rel := Displacement(target, off + 4);
            Patched(X64(), s, k, target) == State(Overwrite(s.code, off, Word(rel)), s.prog[k := WithRel(s.prog[k], rel)], s.targets[k := target])
  {
  }

  // ----- Where branches stand -----

  /** Branch `k` of the list has its displacement at byte `off` of the code. */
  ghost predicate BranchAt(prog: seq<Instr>, off: nat, k: nat) {
    k < |prog| && IsBranch(prog[k]) && off + 4 == Offset(X64().enc, prog, k + 1)
  }

  /** An offset stays good through later emissions and patches, its own and others'. */
  lemma OffsetsStayGood(prog: seq<Instr>, off: nat, k: nat, i: Instr, h: nat, r: i32)
    requires BranchAt(prog, off, k)
    ensures BranchAt(prog + [i], off, k)
    ensures h < |prog| && IsBranch(prog[h]) ==> BranchAt(prog[h := WithRel(prog[h], r)], off, k)
  {
    assert (prog + [i])[..k + 1] == prog[..k + 1];
    if h < |prog| && IsBranch(prog[h]) {
      RetargetEncodes(prog[h], r);
      OffsetsStay(X64().enc, prog, h, WithRel(prog[h], r), k + 1);
    }
  }

  /** One offset belongs to one branch. */
  lemma OffsetsApart(prog: seq<Instr>, off: nat, j: nat, k: nat)
    requires BranchAt(prog, off, j) && BranchAt(prog, off, k)
    ensures j == k
  {
    BoundariesDiffer(prog, j + 1, k + 1);
  }

  lemma BoundariesDiffer(prog: seq<Instr>, j: nat, k: nat)
    requires j <= |prog| && k <= |prog|
    ensures Offset(X64().enc, prog, j) == Offset(X64().enc, prog, k) ==> j == k
  {
    AllNotEmpty(prog);
    OffsetsDiffer(X64().enc, prog, j, k);
  }

  lemma AllNotEmpty(prog: seq<Instr>)
    ensures forall i :: 0 <= i < |prog| ==> |X64().enc(prog[i])| >= 1
  {
    forall i | 0 <= i < |prog| ensures |X64().enc(prog[i])| >= 1 { EncodeNotEmpty(prog[i]); }
  }

  lemma EncodeNotEmpty(i: Instr)
    ensures |Encode(i)| >= 1
  {
    FieldsAreWf(i);
    LayoutNotEmpty(Fields(i));
  }

  /** Whatever calls led to a valid emitter, its code disassembles to what was emitted and every
      patched branch leads to its last target. */
  lemma ValidDisassembles(s: State<Instr>)
    requires Inv(X64(), s)
    ensures UntilEnd(X64().dec, s.code, 0) == Some(s.prog)
    ensures forall k :: k in s.targets ==> Resolves(X64(), s.prog, k, s.targets[k])
  {
    X64IsLawful();
    DisassemblyIsExact(X64(), s.prog);
  }

  lemma BranchBytes(code: bytes, i: Instr)
    requires IsBranch(i) && i.rel == 0
    ensures code + Encode(i) == (if i.Jcc? then code + [0x0F] + [0x80 + i.cc] else code + [if i.Jmp? then 0xE9 else 0xE8]) + [0, 0, 0, 0]
  {
    ZeroWord();
    if i.Jcc? {
      JccBytes(code, i.cc);
    } else if i.Jmp? {
      JmpBytes(code);
    } else {
      CallBytes(code);
    }
  }

  lemma JmpBytes(code: bytes)
    ensures code + Encode(Jmp(0)) == code + [0xE9] + Word(0)
  {
    BranchEndsInRel(0, 0);
  }

  lemma CallBytes(code: bytes)
    ensures code + Encode(Call(0)) == code + [0xE8] + Word(0)
  {
    BranchEndsInRel(0, 0);
  }

  lemma JccBytes(code: bytes, cc: Reg)
    ensures code + Encode(Jcc(cc, 0)) == code + [0x0F] + [0x80 + cc] + Word(0)
  {
    BranchEndsInRel(cc, 0);
    assert [0x0F, 0x80 + cc] == [0x0F] + [0x80 + cc];
  }

  lemma ZeroWord()
    ensures Word(0) == [0, 0, 0, 0]
  {
    assert ByteOf(0, 0) == 0 && ByteOf(0, 1) == 0 && ByteOf(0, 2) == 0 && ByteOf(0, 3) == 0;
  }
}
