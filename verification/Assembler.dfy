/**
 The instructions that crates/cv_asm/src/lib.rs can emit, their fields, and what a processor
 reads back from the fields (Intel SDM, Volume 2).
 */
module Assembler {
  import opened Common
  import opened Wire
  import opened X86
  import opened CodeStream

  /** A general or SSE register, or a condition code. */
  type Reg = r: int | 0 <= r < 16

  type i64 = x: int | -0x8000_0000_0000_0000 <= x < 0x8000_0000_0000_0000

  datatype Alu = Mov | Add | Sub | Cmp | Xor | And | Or | Test

  datatype Widen = Imul | Movsxd | Movzx

  datatype ImmOp = MovI | AddI | SubI | CmpI

  datatype ShiftOp = Shl | Shr | Sar

  datatype UnaryOp = Neg | Idiv

  datatype MemOp = Load | Store | Lea | AddM | SubM | CmpM

  datatype SseOp =
    | Movsd | Addsd | Subsd | Mulsd | Divsd | Sqrtsd | Xorpd | Ucomisd
    | Cvtsi2sd | Cvttsd2si | MovqIn | MovqOut

  datatype SseMemOp = MovsdLoad | MovsdStore | MovapsLoad | MovapsStore

  datatype VexOp = Vaddsd | Vsubsd | Vmulsd | Vdivsd | Vmovsd

  /** Operands are named by their ModR/M role only where the operation is symmetric in form. */
  datatype Instr =
    | AluRR(alu: Alu, dst: Reg, src: Reg)
    | WidenRR(widen: Widen, dst: Reg, src: Reg)
    | WithImm(immOp: ImmOp, dst: Reg, imm: i32)
    | MovImm64(dst: Reg, imm64: i64)
    | Shift(shift: ShiftOp, dst: Reg, count: byte)
    | Unary(unary: UnaryOp, dst: Reg)
    | Cqo | Ret | Nop | Int3 | VZeroUpper
    | Push(reg: Reg)
    | Pop(reg: Reg)
    | CallReg(reg: Reg)
    | Jmp(rel: i32)
    | Call(rel: i32)
    | Jcc(cc: Reg, rel: i32)
    | SetCc(cc: Reg, reg: Reg)
    | GprMem(mem: MemOp, reg: Reg, base: Reg, disp: i32)
    | Load32(reg: Reg, base: Reg, disp: i32)
    | Indexed(store: bool, reg: Reg, base: Reg, index: Reg, scale: nat, disp: i32)
    | SseRR(sse: SseOp, reg: Reg, rm: Reg)
    | SseMem(sseMem: SseMemOp, reg: Reg, base: Reg, disp: i32)
    | VexRRR(vex: VexOp, dst: Reg, first: Reg, second: Reg)
    | VMovq(dst: Reg, src: Reg)
    | VUcomisd(dst: Reg, src: Reg)

  const RSP: Reg := 4

  predicate IsScale(s: nat) { s == 1 || s == 2 || s == 4 || s == 8 }

  /** What the emitter insists on: no RSP as an index, and a scale the format has. */
  predicate Encodable(i: Instr) { i.Indexed? ==> i.index != RSP && IsScale(i.scale) }

  // ----- Opcodes -----

  function AluOpcode(op: Alu): byte {
    match op
    case Mov => 0x89 case Add => 0x01 case Sub => 0x29 case Cmp => 0x39
    case Xor => 0x31 case And => 0x21 case Or => 0x09 case Test => 0x85
  }

  function MemOpcode(op: MemOp): byte {
    match op
    case Load => 0x8B case Store => 0x89 case Lea => 0x8D
    case AddM => 0x03 case SubM => 0x2B case CmpM => 0x3B
  }

  function WidenOpcode(op: Widen): byte { match op case Imul => 0xAF case Movsxd => 0x63 case Movzx => 0xB6 }

  function ImmOpcode(op: ImmOp): byte { if op == MovI then 0xC7 else 0x81 }

  function ImmExtension(op: ImmOp): nat { match op case MovI => 0 case AddI => 0 case SubI => 5 case CmpI => 7 }

  function ShiftExtension(op: ShiftOp): nat { match op case Shl => 4 case Shr => 5 case Sar => 7 }

  function UnaryExtension(op: UnaryOp): nat { match op case Neg => 3 case Idiv => 7 }

  function SsePrefix(op: SseOp): byte {
    match op case Xorpd => 0x66 case Ucomisd => 0x66 case MovqIn => 0x66 case MovqOut => 0x66 case _ => 0xF2
  }

  predicate SseWide(op: SseOp) { op == Cvtsi2sd || op == Cvttsd2si || op == MovqIn || op == MovqOut }

  function SseOpcode(op: SseOp): byte {
    match op
    case Movsd => 0x10 case Addsd => 0x58 case Subsd => 0x5C case Mulsd => 0x59 case Divsd => 0x5E
    case Sqrtsd => 0x51 case Xorpd => 0x57 case Ucomisd => 0x2E case Cvtsi2sd => 0x2A
    case Cvttsd2si => 0x2C case MovqIn => 0x6E case MovqOut => 0x7E
  }

  function SseMemPrefix(op: SseMemOp): Option<byte> { if op.MovsdLoad? || op.MovsdStore? then Some(0xF2) else None }

  function SseMemOpcode(op: SseMemOp): byte {
    match op case MovsdLoad => 0x10 case MovsdStore => 0x11 case MovapsLoad => 0x28 case MovapsStore => 0x29
  }

  function VexOpcode(op: VexOp): byte {
    match op case Vaddsd => 0x58 case Vsubsd => 0x5C case Vmulsd => 0x59 case Vdivsd => 0x5E case Vmovsd => 0x10
  }

  // ----- Signed numbers -----

  /** Two's complement in `n` bytes. */
  function ToUnsigned(v: int, n: nat): nat
    requires 0 <= v + Pow256(n)
  {
    if v < 0 then v + Pow256(n) else v
  }

  function SignedBytes(v: int, n: nat): (r: bytes)
    requires 0 <= v + Pow256(n)
    ensures |r| == n
  {
    Le(ToUnsigned(v, n), n)
  }

  function Signed(bs: bytes): int {
    var u := FromLe(bs);
    if 2 * u < Pow256(|bs|) then u else u - Pow256(|bs|)
  }

  lemma SignedRoundTrip(v: int, n: nat)
    requires 0 <= 2 * v + Pow256(n) && 2 * v < Pow256(n)
    ensures Signed(SignedBytes(v, n)) == v
  {
    LeRoundTrip(ToUnsigned(v, n), n);
  }

  function Bytes64(v: i64): (r: bytes)
    ensures |r| == 8
  {
    Pow256Values();
    SignedBytes(v, DOUBLE)
  }

  lemma Signed32(v: i32)
    ensures Signed(Word(v)) == v
  {
    Pow256Values();
    SignedRoundTrip(v, WORD);
  }

  lemma Signed64(v: i64)
    ensures Signed(Bytes64(v)) == v
  {
    Pow256Values();
    SignedRoundTrip(v, DOUBLE);
  }

  // ----- From instructions to fields -----

  function RexIf(w: bool, r: bool, x: bool, b: bool): Option<Rex> {
    if w || r || x || b then Some(Rex(w, r, x, b)) else None
  }

  function RegForm(reg: nat, rm: nat): Option<ModRM> { Some(ModRM(3, reg % 8, rm % 8, None, [])) }

  /** Base plus 32-bit displacement; a base ending in 100 needs a SIB byte. */
  function MemForm(reg: nat, base: nat, disp: i32): Option<ModRM> {
    Some(ModRM(2, reg % 8, base % 8, if base % 8 == 4 then Some(Sib(0, 4, 4)) else None, Word(disp)))
  }

  function ScaleBits(scale: nat): nat { if scale == 1 then 0 else if scale == 2 then 1 else if scale == 4 then 2 else 3 }

  function IndexedForm(reg: nat, base: nat, index: nat, scale: nat, disp: i32): Option<ModRM> {
    Some(ModRM(2, reg % 8, 4, Some(Sib(ScaleBits(scale), index % 8, base % 8)), Word(disp)))
  }

  function VexForm(w: bool, reg: Reg, vvvv: Reg, rm: Reg, pp: nat, opcode: byte): Raw {
    Vex(false, Rex(w, reg >= 8, false, rm >= 8), 1, vvvv, false, pp, opcode, RegForm(reg, rm))
  }

  function Fields(i: Instr): Raw {
    match i
    case AluRR(op, dst, src) => Legacy(None, RexIf(true, src >= 8, false, dst >= 8), false, AluOpcode(op), RegForm(src, dst), [])
    case WidenRR(op, dst, src) => Legacy(None, RexIf(true, dst >= 8, false, src >= 8), !op.Movsxd?, WidenOpcode(op), RegForm(dst, src), [])
    case WithImm(op, dst, imm) => Legacy(None, RexIf(true, false, false, dst >= 8), false, ImmOpcode(op), RegForm(ImmExtension(op), dst), Word(imm))
    case MovImm64(dst, imm) => Legacy(None, RexIf(true, false, false, dst >= 8), false, 0xB8 + dst % 8, None, Bytes64(imm))
    case Shift(op, dst, count) => Legacy(None, RexIf(true, false, false, dst >= 8), false, 0xC1, RegForm(ShiftExtension(op), dst), [count])
    case Unary(op, dst) => Legacy(None, RexIf(true, false, false, dst >= 8), false, 0xF7, RegForm(UnaryExtension(op), dst), [])
    case Cqo => Legacy(None, RexIf(true, false, false, false), false, 0x99, None, [])
    case Ret => Legacy(None, None, false, 0xC3, None, [])
    case Nop => Legacy(None, None, false, 0x90, None, [])
    case Int3 => Legacy(None, None, false, 0xCC, None, [])
    case VZeroUpper => Vex(true, Rex(false, false, false, false), 1, 0, false, 0, 0x77, None)
    case Push(reg) => Legacy(None, RexIf(false, false, false, reg >= 8), false, 0x50 + reg % 8, None, [])
    case Pop(reg) => Legacy(None, RexIf(false, false, false, reg >= 8), false, 0x58 + reg % 8, None, [])
    case CallReg(reg) => Legacy(None, RexIf(false, false, false, reg >= 8), false, 0xFF, RegForm(2, reg), [])
    case Jmp(rel) => Legacy(None, None, false, 0xE9, None, Word(rel))
    case Call(rel) => Legacy(None, None, false, 0xE8, None, Word(rel))
    case Jcc(cc, rel) => Legacy(None, None, true, 0x80 + cc, None, Word(rel))
    case SetCc(cc, reg) => Legacy(None, Some(Rex(false, false, false, reg >= 8)), true, 0x90 + cc, RegForm(0, reg), [])
    case GprMem(op, reg, base, disp) => Legacy(None, RexIf(true, reg >= 8, false, base >= 8), false, MemOpcode(op), MemForm(reg, base, disp), [])
    case Load32(reg, base, disp) => Legacy(None, RexIf(false, reg >= 8, false, base >= 8), false, 0x8B, MemForm(reg, base, disp), [])
    case Indexed(store, reg, base, index, scale, disp) =>
      Legacy(None, RexIf(true, reg >= 8, index >= 8, base >= 8), false, if store then 0x89 else 0x8B, IndexedForm(reg, base, index, scale, disp), [])
    case SseRR(op, reg, rm) => Legacy(Some(SsePrefix(op)), RexIf(SseWide(op), reg >= 8, false, rm >= 8), true, SseOpcode(op), RegForm(reg, rm), [])
    case SseMem(op, reg, base, disp) => Legacy(SseMemPrefix(op), RexIf(false, reg >= 8, false, base >= 8), true, SseMemOpcode(op), MemForm(reg, base, disp), [])
    case VexRRR(op, dst, first, second) => VexForm(false, dst, first, second, 3, VexOpcode(op))
    case VMovq(dst, src) => VexForm(true, dst, 0, src, 1, 0x6E)
    case VUcomisd(dst, src) => VexForm(false, dst, 0, src, 1, 0x2E)
  }

  lemma FieldsAreWf(i: Instr)
    ensures WfRaw(Fields(i))
  {
    if i.GprMem? || i.Load32? || i.Indexed? || i.SseMem? {
      MemoryFieldsAreWf(i);
    } else if i.SseRR? || i.VexRRR? || i.VMovq? || i.VUcomisd? || i.VZeroUpper? {
      VectorFieldsAreWf(i);
    } else if i.AluRR? || i.WidenRR? || i.WithImm? || i.Shift? || i.Unary? || i.SetCc? || i.CallReg? {
      RegisterFieldsAreWf(i);
    } else {
      PlainFieldsAreWf(i);
    }
  }

  lemma VectorFieldsAreWf(i: Instr)
    requires i.SseRR? || i.VexRRR? || i.VMovq? || i.VUcomisd? || i.VZeroUpper?
    ensures WfRaw(Fields(i))
  {
  }

  lemma RegisterFieldsAreWf(i: Instr)
    requires i.AluRR? || i.WidenRR? || i.WithImm? || i.Shift? || i.Unary? || i.SetCc? || i.CallReg?
    ensures WfRaw(Fields(i))
  {
  }

  lemma PlainFieldsAreWf(i: Instr)
    requires i.MovImm64? || i.Cqo? || i.Ret? || i.Nop? || i.Int3? || i.Push? || i.Pop? || i.Jmp? || i.Call? || i.Jcc?
    ensures WfRaw(Fields(i))
  {
  }

  lemma MemoryFieldsAreWf(i: Instr)
    requires i.GprMem? || i.Load32? || i.Indexed? || i.SseMem?
    ensures WfRaw(Fields(i))
  {
  }

  /** The machine code of one instruction. */
  function Encode(i: Instr): bytes {
    FieldsAreWf(i);
    Layout(Fields(i))
  }

  // ----- From fields to instructions -----

  /** A register number from its low bits and an extension bit. */
  function Extended(ext: bool, low: nat): Reg
    requires low < 8
  {
    low + 8 * Bit(ext)
  }

  function RexValue(r: Option<Rex>): Rex { if r.Some? then r.value else Rex(false, false, false, false) }

  datatype Address = Address(base: Option<Reg>, index: Option<(Reg, nat)>, disp: int) | RipRelative(offset: int)

  /** The memory operand of a ModR/M with mod below 3; index 100 without REX.X means none. */
  function AddressOf(x: Rex, m: ModRM): Address
    requires WfModRM(m)
  {
    var disp := Signed(m.disp);
    match m.sib
    case None => if m.mod == 0 && m.rm == 5 then RipRelative(disp) else Address(Some(Extended(x.b, m.rm)), None, disp)
    case Some(s) =>
      var index := Extended(x.x, s.index);
      Address(if m.mod == 0 && s.base == 5 then None else Some(Extended(x.b, s.base)),
              if index == RSP then None else Some((index, if s.scale == 0 then 1 else if s.scale == 1 then 2 else if s.scale == 2 then 4 else 8)),
              disp)
  }

  function AsI32(bs: bytes): Option<i32> { if -0x8000_0000 <= Signed(bs) < 0x8000_0000 then Some(Signed(bs)) else None }

  /** Instructions without operands in ModR/M. */
  function ShortMeaning(rex: Option<Rex>, opcode: byte, imm: bytes): Option<Instr> {
    var x := RexValue(rex);
    if 0x50 <= opcode < 0x58 then Some(Push(Extended(x.b, opcode - 0x50)))
    else if 0x58 <= opcode < 0x60 then Some(Pop(Extended(x.b, opcode - 0x58)))
    else if 0xB8 <= opcode < 0xC0 && x.w && -0x8000_0000_0000_0000 <= Signed(imm) < 0x8000_0000_0000_0000
      then Some(MovImm64(Extended(x.b, opcode - 0xB8), Signed(imm)))
    else if opcode == 0x99 && x.w then Some(Cqo)
    else if opcode == 0xC3 then Some(Ret)
    else if opcode == 0x90 && rex.None? then Some(Nop)
    else if opcode == 0xCC then Some(Int3)
    else
      match AsI32(imm)
      case None => None
      case Some(rel) => if opcode == 0xE9 then Some(Jmp(rel)) else if opcode == 0xE8 then Some(Call(rel)) else None
  }

  function AluOf(opcode: byte): Option<Alu> {
    match opcode
    case 0x89 => Some(Mov) case 0x01 => Some(Add) case 0x29 => Some(Sub) case 0x39 => Some(Cmp)
    case 0x31 => Some(Xor) case 0x21 => Some(And) case 0x09 => Some(Or) case 0x85 => Some(Test)
    case _ => None
  }

  /** One-byte opcodes with a register operand. */
  function RegMeaning(x: Rex, opcode: byte, m: ModRM, imm: bytes): Option<Instr>
    requires WfModRM(m)
  {
    var reg, rm := Extended(x.r, m.reg), Extended(x.b, m.rm);
    if opcode == 0xFF then (if m.reg == 2 then Some(CallReg(rm)) else None)
    else if !x.w then None
    else if opcode == 0x63 then Some(WidenRR(Movsxd, reg, rm))
    else if opcode == 0xC1 then
      if |imm| != 1 then None
      else if m.reg == 4 then Some(Shift(Shl, rm, imm[0]))
      else if m.reg == 5 then Some(Shift(Shr, rm, imm[0]))
      else if m.reg == 7 then Some(Shift(Sar, rm, imm[0]))
      else None
    else if opcode == 0xF7 then (if m.reg == 3 then Some(Unary(Neg, rm)) else if m.reg == 7 then Some(Unary(Idiv, rm)) else None)
    else if opcode == 0xC7 || opcode == 0x81 then
      match AsI32(imm)
      case None => None
      case Some(v) =>
        if opcode == 0xC7 then (if m.reg == 0 then Some(WithImm(MovI, rm, v)) else None)
        else if m.reg == 0 then Some(WithImm(AddI, rm, v))
        else if m.reg == 5 then Some(WithImm(SubI, rm, v))
        else if m.reg == 7 then Some(WithImm(CmpI, rm, v))
        else None
    else
      match AluOf(opcode)
      case None => None
      case Some(op) => Some(AluRR(op, rm, reg))
  }

  function MemOf(opcode: byte): Option<MemOp> {
    match opcode
    case 0x8B => Some(Load) case 0x89 => Some(Store) case 0x8D => Some(Lea)
    case 0x03 => Some(AddM) case 0x2B => Some(SubM) case 0x3B => Some(CmpM)
    case _ => None
  }

  /** One-byte opcodes with a memory operand. */
  function MemMeaning(x: Rex, opcode: byte, m: ModRM): Option<Instr>
    requires WfModRM(m)
  {
    var reg := Extended(x.r, m.reg);
    match AddressOf(x, m)
    case RipRelative(_) => None
    case Address(base, index, disp) =>
      if base.None? || !(-0x8000_0000 <= disp < 0x8000_0000) || MemOf(opcode).None? then None
      else
        var op := MemOf(opcode).value;
        match index
        case None =>
          if x.w then Some(GprMem(op, reg, base.value, disp))
          else if op.Load? then Some(Load32(reg, base.value, disp))
          else None
        case Some((i, s)) =>
          if x.w && (op.Load? || op.Store?) then Some(Indexed(op.Store?, reg, base.value, i, s, disp)) else None
  }

  function SseOf(prefix: byte, wide: bool, opcode: byte): Option<SseOp> {
    if prefix == 0xF2 then
      (if wide then (match opcode case 0x2A => Some(Cvtsi2sd) case 0x2C => Some(Cvttsd2si) case _ => None)
       else (match opcode
             case 0x10 => Some(Movsd) case 0x58 => Some(Addsd) case 0x5C => Some(Subsd) case 0x59 => Some(Mulsd)
             case 0x5E => Some(Divsd) case 0x51 => Some(Sqrtsd) case _ => None))
    else if prefix == 0x66 then
      (if wide then (match opcode case 0x6E => Some(MovqIn) case 0x7E => Some(MovqOut) case _ => None)
       else (match opcode case 0x57 => Some(Xorpd) case 0x2E => Some(Ucomisd) case _ => None))
    else None
  }

  function SseMemOf(prefix: Option<byte>, opcode: byte): Option<SseMemOp> {
    if prefix == Some(0xF2) then (match opcode case 0x10 => Some(MovsdLoad) case 0x11 => Some(MovsdStore) case _ => None)
    else if prefix == None then (match opcode case 0x28 => Some(MovapsLoad) case 0x29 => Some(MovapsStore) case _ => None)
    else None
  }

  /** Two-byte opcodes; without any REX the byte registers 4 to 7 are AH to BH, which no
      instruction here has. */
  function EscapeMeaning(prefix: Option<byte>, rex: Option<Rex>, opcode: byte, modrm: Option<ModRM>, imm: bytes): Option<Instr>
    requires modrm.Some? ==> WfModRM(modrm.value)
  {
    var x := RexValue(rex);
    if modrm.None? then
      if prefix.None? && 0x80 <= opcode < 0x90 && AsI32(imm).Some? then Some(Jcc(opcode - 0x80, AsI32(imm).value)) else None
    else
      var m := modrm.value;
      var reg := Extended(x.r, m.reg);
      if m.mod == 3 then
        var rm := Extended(x.b, m.rm);
        if prefix.Some? then (match SseOf(prefix.value, x.w, opcode) case None => None case Some(op) => Some(SseRR(op, reg, rm)))
        else if 0x90 <= opcode < 0xA0 then (if rex.Some? || m.rm < 4 then Some(SetCc(opcode - 0x90, rm)) else None)
        else if opcode == 0xAF && x.w then Some(WidenRR(Imul, reg, rm))
        else if opcode == 0xB6 && x.w then Some(WidenRR(Movzx, reg, rm))
        else None
      else
        match AddressOf(x, m)
        case RipRelative(_) => None
        case Address(base, index, disp) =>
          if base.None? || index.Some? || x.w || SseMemOf(prefix, opcode).None? || !(-0x8000_0000 <= disp < 0x8000_0000) then None
          else Some(SseMem(SseMemOf(prefix, opcode).value, reg, base.value, disp))
  }

  function VexOf(opcode: byte): Option<VexOp> {
    match opcode
    case 0x58 => Some(Vaddsd) case 0x5C => Some(Vsubsd) case 0x59 => Some(Vmulsd) case 0x5E => Some(Vdivsd) case 0x10 => Some(Vmovsd)
    case _ => None
  }

  function VexMeaning(x: Rex, m: nat, vvvv: nat, l: bool, pp: nat, opcode: byte, modrm: Option<ModRM>): Option<Instr>
    requires (modrm.Some? ==> WfModRM(modrm.value)) && vvvv < 16
  {
    if m != 1 || l then None
    else if modrm.None? then (if opcode == 0x77 && vvvv == 0 && pp == 0 then Some(VZeroUpper) else None)
    else if modrm.value.mod != 3 then None
    else
      var reg, rm := Extended(x.r, modrm.value.reg), Extended(x.b, modrm.value.rm);
      if pp == 3 then (match VexOf(opcode) case None => None case Some(op) => Some(VexRRR(op, reg, vvvv, rm)))
      else if pp == 1 && vvvv == 0 && opcode == 0x6E && x.w then Some(VMovq(reg, rm))
      else if pp == 1 && vvvv == 0 && opcode == 0x2E then Some(VUcomisd(reg, rm))
      else None
  }

  /** The instruction a processor sees in given fields. */
  function Meaning(r: Raw): Option<Instr>
    requires WfRaw(r)
  {
    match r
    case Vex(_, x, m, vvvv, l, pp, opcode, modrm) => VexMeaning(x, m, vvvv, l, pp, opcode, modrm)
    case Legacy(prefix, rex, escape, opcode, modrm, imm) =>
      if escape then EscapeMeaning(prefix, rex, opcode, modrm, imm)
      else if prefix.Some? then None
      else if modrm.None? then ShortMeaning(rex, opcode, imm)
      else if modrm.value.mod == 3 then RegMeaning(RexValue(rex), opcode, modrm.value, imm)
      else MemMeaning(RexValue(rex), opcode, modrm.value)
  }

  lemma RegisterBits(r: Reg)
    ensures Extended(r >= 8, r % 8) == r
  {
  }

  lemma MemFormMeans(x: Rex, reg: Reg, base: Reg, disp: i32)
    requires x.b == (base >= 8) && !x.x
    ensures WfModRM(MemForm(reg, base, disp).value) && AddressOf(x, MemForm(reg, base, disp).value) == Address(Some(base), None, disp)
  {
    Signed32(disp);
    RegisterBits(base);
  }

  lemma IndexedFormMeans(x: Rex, reg: Reg, base: Reg, index: Reg, scale: nat, disp: i32)
    requires x.b == (base >= 8) && x.x == (index >= 8) && index != RSP && IsScale(scale)
    ensures WfModRM(IndexedForm(reg, base, index, scale, disp).value)
    ensures AddressOf(x, IndexedForm(reg, base, index, scale, disp).value) == Address(Some(base), Some((index, scale)), disp)
  {
    Signed32(disp);
    RegisterBits(base);
    RegisterBits(index);
  }

  /** The fields of `i` are well-formed and mean `i`. */
  ghost predicate Means(i: Instr) { WfRaw(Fields(i)) && Meaning(Fields(i)) == Some(i) }

  lemma MemMeaningIs(x: Rex, op: MemOp, m: ModRM, base: Reg, disp: i32)
    requires WfModRM(m) && x.w && AddressOf(x, m) == Address(Some(base), None, disp)
    ensures MemMeaning(x, MemOpcode(op), m) == Some(GprMem(op, Extended(x.r, m.reg), base, disp))
  {
  }

  lemma GprMemFields(op: MemOp, reg: Reg, base: Reg, disp: i32, r: Raw)
    requires r == Legacy(None, Some(Rex(true, reg >= 8, false, base >= 8)), false, MemOpcode(op), MemForm(reg, base, disp), [])
    ensures WfRaw(r) && Meaning(r) == Some(GprMem(op, reg, base, disp))
  {
    var x, m := r.rex.value, r.modrm;
    MemFormMeans(x, reg, base, disp);
    MemMeaningIs(x, op, m.value, base, disp);
    RegisterBits(reg);
    PlainMemory(Some(x), op, m);
  }

  lemma GprMemMeans(op: MemOp, reg: Reg, base: Reg, disp: i32)
    ensures Means(GprMem(op, reg, base, disp))
  {
    GprMemFields(op, reg, base, disp, Fields(GprMem(op, reg, base, disp)));
  }

  lemma PlainMemory(rex: Option<Rex>, op: MemOp, m: Option<ModRM>)
    requires m.Some? && WfModRM(m.value) && m.value.mod == 2
    ensures WfRaw(Legacy(None, rex, false, MemOpcode(op), m, []))
    ensures Meaning(Legacy(None, rex, false, MemOpcode(op), m, [])) == MemMeaning(RexValue(rex), MemOpcode(op), m.value)
  {
  }

  lemma Load32Means(reg: Reg, base: Reg, disp: i32)
    ensures Means(Load32(reg, base, disp))
  {
    var rex, m := RexIf(false, reg >= 8, false, base >= 8), MemForm(reg, base, disp);
    MemFormMeans(RexValue(rex), reg, base, disp);
    RegisterBits(reg);
    PlainMemory(rex, Load, m);
  }

  lemma IndexedMeaningIs(x: Rex, op: MemOp, m: ModRM, base: Reg, index: Reg, scale: nat, disp: i32)
    requires WfModRM(m) && x.w && (op.Load? || op.Store?) && AddressOf(x, m) == Address(Some(base), Some((index, scale)), disp)
    ensures MemMeaning(x, MemOpcode(op), m) == Some(Indexed(op.Store?, Extended(x.r, m.reg), base, index, scale, disp))
  {
  }

  lemma IndexedFields(op: MemOp, reg: Reg, base: Reg, index: Reg, scale: nat, disp: i32, r: Raw)
    requires index != RSP && IsScale(scale) && (op.Load? || op.Store?)
    requires r == Legacy(None, Some(Rex(true, reg >= 8, index >= 8, base >= 8)), false, MemOpcode(op),
                         IndexedForm(reg, base, index, scale, disp), [])
    ensures WfRaw(r) && Meaning(r) == Some(Indexed(op.Store?, reg, base, index, scale, disp))
  {
    var x, m := r.rex.value, r.modrm;
    IndexedFormMeans(x, reg, base, index, scale, disp);
    IndexedMeaningIs(x, op, m.value, base, index, scale, disp);
    RegisterBits(reg);
    PlainMemory(Some(x), op, m);
  }

  lemma IndexedMeans(store: bool, reg: Reg, base: Reg, index: Reg, scale: nat, disp: i32)
    requires index != RSP && IsScale(scale)
    ensures Means(Indexed(store, reg, base, index, scale, disp))
  {
    IndexedFields(if store then Store else Load, reg, base, index, scale, disp, Fields(Indexed(store, reg, base, index, scale, disp)));
  }

  lemma SseMemMeans(op: SseMemOp, reg: Reg, base: Reg, disp: i32)
    ensures Means(SseMem(op, reg, base, disp))
  {
    var rex, m := RexIf(false, reg >= 8, false, base >= 8), MemForm(reg, base, disp);
    MemFormMeans(RexValue(rex), reg, base, disp);
    RegisterBits(reg);
    SseMemMeaning(op, rex, m.value, base, disp);
  }

  lemma SseMemMeaning(op: SseMemOp, rex: Option<Rex>, m: ModRM, base: Reg, disp: i32)
    requires WfModRM(m) && m.mod == 2 && !RexValue(rex).w && AddressOf(RexValue(rex), m) == Address(Some(base), None, disp)
    ensures WfRaw(Legacy(SseMemPrefix(op), rex, true, SseMemOpcode(op), Some(m), []))
    ensures EscapeMeaning(SseMemPrefix(op), rex, SseMemOpcode(op), Some(m), []) ==
            Some(SseMem(op, Extended(RexValue(rex).r, m.reg), base, disp))
  {
  }

  lemma WithImmMeans(op: ImmOp, dst: Reg, imm: i32)
    ensures Means(WithImm(op, dst, imm))
  {
    Signed32(imm);
    RegisterBits(dst);
  }

  lemma MovImm64Means(dst: Reg, imm: i64)
    ensures Means(MovImm64(dst, imm))
  {
    Signed64(imm);
    RegisterBits(dst);
  }

  lemma BranchesMean(cc: Reg, rel: i32)
    ensures Means(Jmp(rel)) && Means(Call(rel)) && Means(Jcc(cc, rel))
  {
    Signed32(rel);
  }

  lemma SseRRMeans(op: SseOp, reg: Reg, rm: Reg)
    ensures Means(SseRR(op, reg, rm))
  {
    RegisterBits(reg);
    RegisterBits(rm);
  }

  lemma AluMeans(op: Alu, dst: Reg, src: Reg)
    ensures Means(AluRR(op, dst, src))
  {
    RegisterBits(dst);
    RegisterBits(src);
  }

  lemma WidenMeans(op: Widen, dst: Reg, src: Reg)
    ensures Means(WidenRR(op, dst, src))
  {
    RegisterBits(dst);
    RegisterBits(src);
  }

  lemma VexRRRMeans(op: VexOp, dst: Reg, first: Reg, second: Reg)
    ensures Means(VexRRR(op, dst, first, second))
  {
    RegisterBits(dst);
    RegisterBits(second);
  }

  lemma VexPairsMean(dst: Reg, src: Reg)
    ensures Means(VMovq(dst, src)) && Means(VUcomisd(dst, src))
  {
    RegisterBits(dst);
    RegisterBits(src);
  }

  lemma ShiftMeans(op: ShiftOp, reg: Reg, count: byte)
    ensures Means(Shift(op, reg, count))
  {
    RegisterBits(reg);
  }

  lemma UnaryMeans(op: UnaryOp, reg: Reg)
    ensures Means(Unary(op, reg)) && Means(CallReg(reg))
  {
    RegisterBits(reg);
  }

  lemma SetCcMeans(cc: Reg, reg: Reg)
    ensures Means(SetCc(cc, reg))
  {
    var rex, m := Some(Rex(false, false, false, reg >= 8)), RegForm(0, reg);
    SetCcMeaning(cc, rex, m.value);
    RegisterBits(reg);
  }

  lemma SetCcMeaning(cc: Reg, rex: Option<Rex>, m: ModRM)
    requires WfModRM(m) && m.mod == 3 && rex.Some?
    ensures WfRaw(Legacy(None, rex, true, 0x90 + cc, Some(m), []))
    ensures EscapeMeaning(None, rex, 0x90 + cc, Some(m), []) == Some(SetCc(cc, Extended(rex.value.b, m.rm)))
  {
  }

  lemma StackMeans(reg: Reg)
    ensures Means(Push(reg)) && Means(Pop(reg))
  {
    RegisterBits(reg);
  }

  lemma RetMeans()
    ensures Means(Ret)
  {
  }

  lemma NopMeans()
    ensures Means(Nop)
  {
  }

  lemma Int3Means()
    ensures Means(Int3)
  {
  }

  lemma CqoMeans()
    ensures Means(Cqo)
  {
  }

  lemma VZeroUpperMeans()
    ensures Means(VZeroUpper)
  {
  }

  /** The fields of every instruction the emitter accepts mean that instruction. */
  lemma FieldsMean(i: Instr)
    requires Encodable(i)
    ensures Means(i)
  {
    match i
    case AluRR(op, dst, src) => AluMeans(op, dst, src);
    case WidenRR(op, dst, src) => WidenMeans(op, dst, src);
    case WithImm(op, dst, imm) => WithImmMeans(op, dst, imm);
    case MovImm64(dst, imm) => MovImm64Means(dst, imm);
    case Shift(op, dst, count) => ShiftMeans(op, dst, count);
    case Unary(op, dst) => UnaryMeans(op, dst);
    case CallReg(reg) => UnaryMeans(Neg, reg);
    case SetCc(cc, reg) => SetCcMeans(cc, reg);
    case Push(reg) => StackMeans(reg);
    case Pop(reg) => StackMeans(reg);
    case Jmp(rel) => BranchesMean(0, rel);
    case Call(rel) => BranchesMean(0, rel);
    case Jcc(cc, rel) => BranchesMean(cc, rel);
    case GprMem(op, reg, base, disp) => GprMemMeans(op, reg, base, disp);
    case Load32(reg, base, disp) => Load32Means(reg, base, disp);
    case Indexed(store, reg, base, index, scale, disp) => IndexedMeans(store, reg, base, index, scale, disp);
    case SseRR(op, reg, rm) => SseRRMeans(op, reg, rm);
    case SseMem(op, reg, base, disp) => SseMemMeans(op, reg, base, disp);
    case VexRRR(op, dst, first, second) => VexRRRMeans(op, dst, first, second);
    case VMovq(dst, src) => VexPairsMean(dst, src);
    case VUcomisd(dst, src) => VexPairsMean(dst, src);
    case VZeroUpper => VZeroUpperMeans();
    case Cqo => CqoMeans();
    case Ret => RetMeans();
    case Nop => NopMeans();
    case Int3 => Int3Means();
  }

  // ----- Streams -----

  /** One instruction. */
  function Decode(bs: bytes, pos: nat): Parsed<Instr> {
    match Parse(bs, pos)
    case Fail => Fail
    case Ok(raw, p) =>
      if !WfRaw(raw) then Fail else
        match Meaning(raw)
        case None => Fail
        case Some(i) => Ok(i, p)
  }

  /** An encoded instruction is read back wherever it stands. */
  lemma DecodeEncode(bs: bytes, pos: nat, i: Instr)
    requires Encodable(i) && At(bs, pos, Encode(i))
    ensures Decode(bs, pos) == Ok(i, pos + |Encode(i)|)
  {
    FieldsMean(i);
    ParseLayout(bs, pos, Fields(i));
  }

  lemma LayoutNotEmpty(r: Raw)
    requires WfRaw(r)
    ensures |Layout(r)| >= 1
  {
  }

  predicate IsBranch(i: Instr) { i.Jmp? || i.Call? || i.Jcc? }

  function RelOf(i: Instr): int { if IsBranch(i) then i.rel else 0 }

  function WithRel(i: Instr, r: i32): Instr {
    match i
    case Jmp(_) => Jmp(r)
    case Call(_) => Call(r)
    case Jcc(cc, _) => Jcc(cc, r)
    case _ => i
  }

  lemma BranchEndsInRel(cc: Reg, r: i32)
    ensures Encode(Jmp(r)) == [0xE9] + Word(r) && Encode(Call(r)) == [0xE8] + Word(r)
    ensures Encode(Jcc(cc, r)) == [0x0F, 0x80 + cc] + Word(r)
  {
  }

  lemma RetargetEncodes(i: Instr, r: i32)
    requires IsBranch(i)
    ensures |Encode(i)| >= 4 && Encode(WithRel(i, r)) == Encode(i)[..|Encode(i)| - 4] + Word(r)
  {
    var cc := if i.Jcc? then i.cc else 0;
    BranchEndsInRel(cc, i.rel);
    BranchEndsInRel(cc, r);
  }

  /** The x86-64 instructions of the emitter as a format. */
  function X64(): Format<Instr> {
    Format(i => Encode(i), (bs, p) => Decode(bs, p), i => Encodable(i), i => IsBranch(i), i => RelOf(i), (i, r) => WithRel(i, r))
  }

  /** Encodings read back and branches can be retargeted, so every run of the emitter
      disassembles to its instructions. */
  lemma X64IsLawful()
    ensures Lawful(X64())
  {
    var fmt := X64();
    forall i | fmt.ok(i) ensures ReadsBackInstr(fmt, i) {
      FieldsAreWf(i);
      LayoutNotEmpty(Fields(i));
      forall bs, p: nat | At(bs, p, fmt.enc(i)) ensures fmt.dec(bs, p) == Ok(i, p + |fmt.enc(i)|) { DecodeEncode(bs, p, i); }
    }
    forall i, r: i32 | fmt.ok(i) && fmt.branch(i) ensures Retargets(fmt, i, r) { RetargetEncodes(i, r); }
  }

  /** For every instruction list the emitter accepts. */
  lemma DisassembleEmitted(prog: seq<Instr>)
    requires Every(X64().ok, prog)
    ensures UntilEnd(X64().dec, Concat(X64().enc, prog), 0) == Some(prog)
  {
    X64IsLawful();
    DisassemblyIsExact(X64(), prog);
  }

  /** For every run of emissions and patches. */
  lemma DisassembleRun(ops: seq<Op<Instr>>)
    requires Run(X64(), ops).Some?
    ensures var s := Run(X64(), ops).value;
            && UntilEnd(X64().dec, s.code, 0) == Some(s.prog)
            && forall k :: k in s.targets ==> Resolves(X64(), s.prog, k, s.targets[k])
  {
    X64IsLawful();
    RunsDisassemble(X64(), ops);
  }
}
