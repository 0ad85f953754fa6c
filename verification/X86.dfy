/**
 The byte format of x86-64 instructions after the Intel SDM, Volume 2A: legacy prefixes and
 opcodes (section 2.1), ModR/M and SIB (2.1.3, 2.1.5), REX (2.2.1) and VEX (2.3), for the part
 of the opcode maps that crates/cv_asm/src/lib.rs uses.
 */
module X86 {
  import opened Common
  import opened Wire

  function Bit(b: bool): nat { if b then 1 else 0 }

  datatype Rex = Rex(w: bool, r: bool, x: bool, b: bool)

  datatype Sib = Sib(scale: nat, index: nat, base: nat)

  /** The ModR/M byte with the SIB byte and the displacement bytes it calls for. */
  datatype ModRM = ModRM(mod: nat, reg: nat, rm: nat, sib: Option<Sib>, disp: bytes)

  /** An instruction split into fields.  VEX fields are given in positive form: `r`, `x` and `b`
      extend register numbers, `vvvv` is a register number. */
  datatype Raw =
    | Legacy(prefix: Option<byte>, rex: Option<Rex>, escape: bool, opcode: byte, modrm: Option<ModRM>, imm: bytes)
    | Vex(short: bool, ext: Rex, m: nat, vvvv: nat, l: bool, pp: nat, opcode: byte, modrm: Option<ModRM>)

  // ----- Which fields there are -----

  predicate IsPrefix(b: byte) { b == 0x66 || b == 0xF2 || b == 0xF3 }

  predicate IsRex(b: byte) { 0x40 <= b < 0x50 }

  predicate HasModRM(escape: bool, opcode: byte) {
    if escape then !(0x80 <= opcode < 0x90) && opcode != 0x77
    else !(0x50 <= opcode < 0x60) && opcode != 0x90 && opcode != 0x99 && !(0xB8 <= opcode < 0xC0)
         && opcode != 0xC3 && opcode != 0xCC && opcode != 0xE8 && opcode != 0xE9
  }

  /** The number of immediate bytes; `reg` is the opcode extension where there is one. */
  function ImmSize(w: bool, escape: bool, opcode: byte, reg: nat): nat {
    if escape then (if 0x80 <= opcode < 0x90 then 4 else 0)
    else if 0xB8 <= opcode < 0xC0 then (if w then 8 else 4)
    else if opcode == 0x81 || opcode == 0xC7 || opcode == 0xE8 || opcode == 0xE9 then 4
    else if opcode == 0xC1 then 1
    else if opcode == 0xF7 && reg < 2 then 4
    else 0
  }

  /** Tables 2-2 and 2-3: how many displacement bytes follow. */
  function DispSize(mod: nat, rm: nat, sib: Option<Sib>): nat {
    if mod == 1 then 1
    else if mod == 2 then 4
    else if mod == 0 && (rm == 5 || (sib.Some? && sib.value.base == 5)) then 4
    else 0
  }

  predicate WfModRM(m: ModRM) {
    && m.mod < 4 && m.reg < 8 && m.rm < 8
    && (m.sib.Some? <==> m.mod < 3 && m.rm == 4)
    && (m.sib.Some? ==> m.sib.value.scale < 4 && m.sib.value.index < 8 && m.sib.value.base < 8)
    && |m.disp| == DispSize(m.mod, m.rm, m.sib)
  }

  function ExtensionOf(m: Option<ModRM>): nat { if m.Some? then m.value.reg else 0 }

  predicate WideRex(rex: Option<Rex>) { rex.Some? && rex.value.w }

  predicate WfRaw(i: Raw) {
    match i
    case Legacy(prefix, rex, escape, opcode, modrm, imm) =>
      && (prefix.Some? ==> IsPrefix(prefix.value))
      && (!escape ==> opcode != 0x0F && opcode != 0xC4 && opcode != 0xC5 && !IsPrefix(opcode) && !IsRex(opcode))
      && (modrm.Some? <==> HasModRM(escape, opcode)) && (modrm.Some? ==> WfModRM(modrm.value))
      && |imm| == ImmSize(WideRex(rex), escape, opcode, ExtensionOf(modrm))
    case Vex(short, ext, m, vvvv, l, pp, opcode, modrm) =>
      && m < 32 && vvvv < 16 && pp < 4
      && (short ==> m == 1 && !ext.w && !ext.x && !ext.b)
      && (modrm.Some? <==> HasModRM(true, opcode)) && (modrm.Some? ==> WfModRM(modrm.value))
  }

  // ----- Layout -----

  function RexByte(r: Rex): byte { 0x40 + 8 * Bit(r.w) + 4 * Bit(r.r) + 2 * Bit(r.x) + Bit(r.b) }

  function ModRMByte(mod: nat, reg: nat, rm: nat): byte { (mod % 4) * 64 + (reg % 8) * 8 + rm % 8 }

  function SibByte(s: Sib): byte { (s.scale % 4) * 64 + (s.index % 8) * 8 + s.base % 8 }

  function SibBytes(s: Option<Sib>): bytes { if s.Some? then [SibByte(s.value)] else [] }

  function ModRMBytes(m: ModRM): bytes { [ModRMByte(m.mod, m.reg, m.rm)] + (SibBytes(m.sib) + m.disp) }

  function OperandBytes(m: Option<ModRM>): bytes { if m.Some? then ModRMBytes(m.value) else [] }

  function PrefixBytes(p: Option<byte>): bytes { if p.Some? then [p.value] else [] }

  function RexBytes(r: Option<Rex>): bytes { if r.Some? then [RexByte(r.value)] else [] }

  function EscapeBytes(escape: bool): bytes { if escape then [0x0F] else [] }

  function VexBytes(short: bool, rex: Rex, m: nat, vvvv: nat, l: bool, pp: nat): bytes
    requires vvvv < 16 && pp < 4 && m < 32
  {
    var low := (15 - vvvv) * 8 + 4 * Bit(l) + pp;
    if short then [0xC5, 128 * Bit(!rex.r) + low]
    else [0xC4, 128 * Bit(!rex.r) + 64 * Bit(!rex.x) + 32 * Bit(!rex.b) + m, 128 * Bit(rex.w) + low]
  }

  /** Prefix, REX, escape, opcode, ModR/M, SIB, displacement, immediate, in this order. */
  function Layout(i: Raw): bytes
    requires WfRaw(i)
  {
    match i
    case Legacy(prefix, rex, escape, opcode, modrm, imm) =>
      PrefixBytes(prefix) + (RexBytes(rex) + (EscapeBytes(escape) + ([opcode] + (OperandBytes(modrm) + imm))))
    case Vex(short, rex, m, vvvv, l, pp, opcode, modrm) =>
      VexBytes(short, rex, m, vvvv, l, pp) + ([opcode] + OperandBytes(modrm))
  }

  // ----- Parsing -----

  function ParseSib(bs: bytes, pos: nat, mod: nat, rm: nat): (r: Parsed<Option<Sib>>)
    ensures r.Ok? ==> pos <= r.pos <= |bs|
  {
    if pos > |bs| then Fail
    else if mod == 3 || rm != 4 then Ok(None, pos)
    else
      match ReadByte(bs, pos)
      case Fail => Fail
      case Ok(b, p) => Ok(Some(Sib(b / 64, b / 8 % 8, b % 8)), p)
  }

  function ParseModRM(bs: bytes, pos: nat): (r: Parsed<ModRM>)
    ensures r.Ok? ==> pos < r.pos <= |bs|
  {
    match ReadByte(bs, pos)
    case Fail => Fail
    case Ok(b, p) => ParseAddress(bs, p, b / 64, b / 8 % 8, b % 8)
  }

  /** What follows a ModR/M byte with the given fields. */
  function ParseAddress(bs: bytes, pos: nat, mod: nat, reg: nat, rm: nat): (r: Parsed<ModRM>)
    ensures r.Ok? ==> pos <= r.pos <= |bs|
  {
    match ParseSib(bs, pos, mod, rm)
    case Fail => Fail
    case Ok(sib, p) =>
      match Take(bs, p, DispSize(mod, rm, sib))
      case Fail => Fail
      case Ok(disp, p2) => Ok(ModRM(mod, reg, rm, sib, disp), p2)
  }

  function ParseOperand(bs: bytes, pos: nat, has: bool): (r: Parsed<Option<ModRM>>)
    ensures r.Ok? ==> pos <= r.pos <= |bs|
  {
    if pos > |bs| then Fail
    else if !has then Ok(None, pos)
    else
      match ParseModRM(bs, pos)
      case Fail => Fail
      case Ok(m, p) => Ok(Some(m), p)
  }

  function RexOf(b: byte): Rex { Rex(b / 8 % 2 == 1, b / 4 % 2 == 1, b / 2 % 2 == 1, b % 2 == 1) }

  /** From the opcode (or its escape byte) on. */
  function ParseOpcode(bs: bytes, pos: nat, prefix: Option<byte>, rex: Option<Rex>): (r: Parsed<Raw>)
    ensures r.Ok? ==> pos < r.pos <= |bs|
  {
    match ReadByte(bs, pos)
    case Fail => Fail
    case Ok(b, p) =>
      if b == 0x0F then
        match ReadByte(bs, p)
        case Fail => Fail
        case Ok(opcode, p2) => ParseRest(bs, p2, prefix, rex, true, opcode)
      else ParseRest(bs, p, prefix, rex, false, b)
  }

  function ParseRest(bs: bytes, pos: nat, prefix: Option<byte>, rex: Option<Rex>, escape: bool, opcode: byte): (r: Parsed<Raw>)
    ensures r.Ok? ==> pos <= r.pos <= |bs|
  {
    match ParseOperand(bs, pos, HasModRM(escape, opcode))
    case Fail => Fail
    case Ok(modrm, p) =>
      match Take(bs, p, ImmSize(WideRex(rex), escape, opcode, ExtensionOf(modrm)))
      case Fail => Fail
      case Ok(imm, p2) => Ok(Legacy(prefix, rex, escape, opcode, modrm, imm), p2)
  }

  function ParseRex(bs: bytes, pos: nat, prefix: Option<byte>): (r: Parsed<Raw>)
    ensures r.Ok? ==> pos < r.pos <= |bs|
  {
    match ReadByte(bs, pos)
    case Fail => Fail
    case Ok(b, p) =>
      if IsRex(b) then ParseOpcode(bs, p, prefix, Some(RexOf(b))) else ParseOpcode(bs, pos, prefix, None)
  }

  function ParseVexOpcode(bs: bytes, pos: nat, short: bool, rex: Rex, m: nat, vvvv: nat, l: bool, pp: nat): (r: Parsed<Raw>)
    ensures r.Ok? ==> pos < r.pos <= |bs|
  {
    match ReadByte(bs, pos)
    case Fail => Fail
    case Ok(opcode, p) =>
      match ParseOperand(bs, p, HasModRM(true, opcode))
      case Fail => Fail
      case Ok(modrm, p2) => Ok(Vex(short, rex, m, vvvv, l, pp, opcode, modrm), p2)
  }

  function ParseVex(bs: bytes, pos: nat, short: bool): (r: Parsed<Raw>)
    ensures r.Ok? ==> pos < r.pos <= |bs|
  {
    match ReadByte(bs, pos)
    case Fail => Fail
    case Ok(b, p) =>
      if short then
        ParseVexOpcode(bs, p, true, Rex(false, b / 128 == 0, false, false), 1, 15 - b / 8 % 16, b / 4 % 2 == 1, b % 4)
      else
        match ReadByte(bs, p)
        case Fail => Fail
        case Ok(c, p2) =>
          ParseVexOpcode(bs, p2, false, Rex(c / 128 == 1, b / 128 == 0, b / 64 % 2 == 0, b / 32 % 2 == 0), b % 32,
                         15 - c / 8 % 16, c / 4 % 2 == 1, c % 4)
  }

  /** One instruction in 64-bit mode, with at most one legacy prefix. */
  function Parse(bs: bytes, pos: nat): (r: Parsed<Raw>)
    ensures r.Ok? ==> pos < r.pos <= |bs|
  {
    match ReadByte(bs, pos)
    case Fail => Fail
    case Ok(b, p) =>
      if b == 0xC4 || b == 0xC5 then ParseVex(bs, p, b == 0xC5)
      else if IsPrefix(b) then ParseRex(bs, p, Some(b))
      else ParseRex(bs, pos, None)
  }

  // ----- Parsing undoes layout -----

  lemma FieldsApart(hi: nat, mid: nat, lo: nat, b: nat)
    requires hi < 4 && mid < 8 && lo < 8 && b == hi * 64 + mid * 8 + lo
    ensures b / 64 == hi && b / 8 % 8 == mid && b % 8 == lo
  {
    assert b / 8 == hi * 8 + mid;
  }

  lemma RexRoundTrip(r: Rex)
    ensures IsRex(RexByte(r)) && RexOf(RexByte(r)) == r
  {
  }

  lemma SibAt(bs: bytes, pos: nat, m: ModRM)
    requires WfModRM(m) && At(bs, pos, SibBytes(m.sib))
    ensures ParseSib(bs, pos, m.mod, m.rm) == Ok(m.sib, pos + |SibBytes(m.sib)|)
  {
    if m.sib.Some? {
      var s := m.sib.value;
      FieldsApart(s.scale, s.index, s.base, SibByte(s));
      SibReads(bs, pos, SibByte(s), m);
    }
  }

  lemma SibReads(bs: bytes, pos: nat, b: byte, m: ModRM)
    requires WfModRM(m) && m.sib.Some? && At(bs, pos, [b])
    requires b / 64 == m.sib.value.scale && b / 8 % 8 == m.sib.value.index && b % 8 == m.sib.value.base
    ensures ParseSib(bs, pos, m.mod, m.rm) == Ok(m.sib, pos + 1)
  {
    ReadByteAt(bs, pos, b);
  }

  lemma AddressAt(bs: bytes, pos: nat, m: ModRM)
    requires WfModRM(m) && At(bs, pos, SibBytes(m.sib) + m.disp)
    ensures ParseAddress(bs, pos, m.mod, m.reg, m.rm) == Ok(m, pos + |SibBytes(m.sib)| + |m.disp|)
  {
    AtSplit(bs, pos, SibBytes(m.sib), m.disp);
    SibAt(bs, pos, m);
    TakeAt(bs, pos + |SibBytes(m.sib)|, m.disp);
  }

  lemma ModRMReads(bs: bytes, pos: nat, b: byte, m: ModRM)
    requires WfModRM(m) && At(bs, pos, [b] + (SibBytes(m.sib) + m.disp))
    requires b / 64 == m.mod && b / 8 % 8 == m.reg && b % 8 == m.rm
    ensures ParseModRM(bs, pos) == Ok(m, pos + 1 + |SibBytes(m.sib)| + |m.disp|)
  {
    AtSplit(bs, pos, [b], SibBytes(m.sib) + m.disp);
    ReadByteAt(bs, pos, b);
    AddressAt(bs, pos + 1, m);
  }

  lemma ModRMAt(bs: bytes, pos: nat, m: ModRM)
    requires WfModRM(m) && At(bs, pos, ModRMBytes(m))
    ensures ParseModRM(bs, pos) == Ok(m, pos + |ModRMBytes(m)|)
  {
    FieldsApart(m.mod, m.reg, m.rm, ModRMByte(m.mod, m.reg, m.rm));
    ModRMReads(bs, pos, ModRMByte(m.mod, m.reg, m.rm), m);
  }

  lemma OperandAt(bs: bytes, pos: nat, m: Option<ModRM>)
    requires (m.Some? ==> WfModRM(m.value)) && At(bs, pos, OperandBytes(m))
    ensures ParseOperand(bs, pos, m.Some?) == Ok(m, pos + |OperandBytes(m)|)
  {
    if m.Some? { ModRMAt(bs, pos, m.value); }
  }

  lemma RestAt(bs: bytes, pos: nat, i: Raw)
    requires i.Legacy? && WfRaw(i) && At(bs, pos, OperandBytes(i.modrm) + i.imm)
    ensures ParseRest(bs, pos, i.prefix, i.rex, i.escape, i.opcode) == Ok(i, pos + |OperandBytes(i.modrm)| + |i.imm|)
  {
    AtSplit(bs, pos, OperandBytes(i.modrm), i.imm);
    OperandAt(bs, pos, i.modrm);
    TakeAt(bs, pos + |OperandBytes(i.modrm)|, i.imm);
  }

  function FromOpcode(i: Raw): bytes
    requires i.Legacy?
  {
    EscapeBytes(i.escape) + ([i.opcode] + (OperandBytes(i.modrm) + i.imm))
  }

  lemma OpcodeAt(bs: bytes, pos: nat, i: Raw)
    requires i.Legacy? && WfRaw(i) && At(bs, pos, FromOpcode(i))
    ensures ParseOpcode(bs, pos, i.prefix, i.rex) == Ok(i, pos + |FromOpcode(i)|)
    ensures bs[pos] == if i.escape then 0x0F else i.opcode
  {
    var rest := OperandBytes(i.modrm) + i.imm;
    var p := pos + |EscapeBytes(i.escape)|;
    AtSplit(bs, pos, EscapeBytes(i.escape), [i.opcode] + rest);
    AtSplit(bs, p, [i.opcode], rest);
    if i.escape { ReadByteAt(bs, pos, 0x0F); }
    ReadByteAt(bs, p, i.opcode);
    RestAt(bs, p + 1, i);
  }

  lemma RexByteAt(bs: bytes, pos: nat, b: byte, i: Raw)
    requires i.Legacy? && WfRaw(i) && At(bs, pos, [b] + FromOpcode(i)) && IsRex(b) && i.rex == Some(RexOf(b))
    ensures ParseRex(bs, pos, i.prefix) == Ok(i, pos + 1 + |FromOpcode(i)|)
    ensures bs[pos] != 0xC4 && bs[pos] != 0xC5 && !IsPrefix(bs[pos])
  {
    AtSplit(bs, pos, [b], FromOpcode(i));
    ReadByteAt(bs, pos, b);
    OpcodeAt(bs, pos + 1, i);
  }

  lemma RexAt(bs: bytes, pos: nat, i: Raw)
    requires i.Legacy? && WfRaw(i) && At(bs, pos, RexBytes(i.rex) + FromOpcode(i))
    ensures ParseRex(bs, pos, i.prefix) == Ok(i, pos + |RexBytes(i.rex)| + |FromOpcode(i)|)
    ensures bs[pos] != 0xC4 && bs[pos] != 0xC5 && !IsPrefix(bs[pos])
  {
    if i.rex.Some? {
      RexRoundTrip(i.rex.value);
      RexByteAt(bs, pos, RexByte(i.rex.value), i);
    } else {
      assert RexBytes(i.rex) + FromOpcode(i) == FromOpcode(i);
      OpcodeAt(bs, pos, i);
      NoRexReads(bs, pos, i);
    }
  }

  lemma NoRexReads(bs: bytes, pos: nat, i: Raw)
    requires i.Legacy? && i.rex.None? && WfRaw(i) && pos < |bs| && bs[pos] == (if i.escape then 0x0F else i.opcode)
    ensures ParseRex(bs, pos, i.prefix) == ParseOpcode(bs, pos, i.prefix, i.rex)
    ensures bs[pos] != 0xC4 && bs[pos] != 0xC5 && !IsPrefix(bs[pos])
  {
  }

  lemma VexOpcodeAt(bs: bytes, pos: nat, i: Raw)
    requires i.Vex? && WfRaw(i) && At(bs, pos, [i.opcode] + OperandBytes(i.modrm))
    ensures ParseVexOpcode(bs, pos, i.short, i.ext, i.m, i.vvvv, i.l, i.pp) == Ok(i, pos + 1 + |OperandBytes(i.modrm)|)
  {
    AtSplit(bs, pos, [i.opcode], OperandBytes(i.modrm));
    ReadByteAt(bs, pos, i.opcode);
    OperandAt(bs, pos + 1, i.modrm);
  }

  /** The bits of the second byte. */
  lemma SecondApart(r: bool, x: bool, b: bool, m: nat, v: nat)
    requires m < 32 && v == 128 * Bit(r) + 64 * Bit(x) + 32 * Bit(b) + m
    ensures (v / 128 == 0) == !r && (v / 64 % 2 == 0) == !x && (v / 32 % 2 == 0) == !b && v % 32 == m
  {
  }

  /** The bits of the third byte. */
  lemma ThirdApart(w: bool, n: nat, l: bool, pp: nat, v: nat)
    requires n < 16 && pp < 4 && v == 128 * Bit(w) + n * 8 + 4 * Bit(l) + pp
    ensures (v / 128 == 1) == w && v / 8 % 16 == n && (v / 4 % 2 == 1) == l && v % 4 == pp
  {
  }

  lemma ShortVexReads(bs: bytes, pos: nat, i: Raw)
    requires i.Vex? && i.short && WfRaw(i) && pos + 2 <= |bs|
    requires bs[pos] == 0xC5 && bs[pos + 1] == 128 * Bit(!i.ext.r) + (15 - i.vvvv) * 8 + 4 * Bit(i.l) + i.pp
    ensures Parse(bs, pos) == ParseVexOpcode(bs, pos + 2, true, i.ext, i.m, i.vvvv, i.l, i.pp)
  {
    ThirdApart(!i.ext.r, 15 - i.vvvv, i.l, i.pp, bs[pos + 1]);
  }

  lemma LongVexReads(bs: bytes, pos: nat, i: Raw)
    requires i.Vex? && !i.short && WfRaw(i) && pos + 3 <= |bs| && bs[pos] == 0xC4
    requires bs[pos + 1] == 128 * Bit(!i.ext.r) + 64 * Bit(!i.ext.x) + 32 * Bit(!i.ext.b) + i.m
    requires bs[pos + 2] == 128 * Bit(i.ext.w) + (15 - i.vvvv) * 8 + 4 * Bit(i.l) + i.pp
    ensures Parse(bs, pos) == ParseVexOpcode(bs, pos + 3, false, i.ext, i.m, i.vvvv, i.l, i.pp)
  {
    SecondApart(!i.ext.r, !i.ext.x, !i.ext.b, i.m, bs[pos + 1]);
    ThirdApart(i.ext.w, 15 - i.vvvv, i.l, i.pp, bs[pos + 2]);
  }

  lemma VexAt(bs: bytes, pos: nat, i: Raw)
    requires i.Vex? && WfRaw(i) && At(bs, pos, Layout(i))
    ensures Parse(bs, pos) == Ok(i, pos + |Layout(i)|)
  {
    var v := VexBytes(i.short, i.ext, i.m, i.vvvv, i.l, i.pp);
    AtSplit(bs, pos, v, [i.opcode] + OperandBytes(i.modrm));
    VexOpcodeAt(bs, pos + |v|, i);
    assert bs[pos] == v[0] && bs[pos + 1] == v[1];
    if i.short {
      ShortVexReads(bs, pos, i);
    } else {
      assert bs[pos + 2] == v[2];
      LongVexReads(bs, pos, i);
    }
  }

  /** Whatever follows, an instruction is parsed back into exactly its fields. */
  lemma ParseLayout(bs: bytes, pos: nat, i: Raw)
    requires WfRaw(i) && At(bs, pos, Layout(i))
    ensures Parse(bs, pos) == Ok(i, pos + |Layout(i)|)
  {
    if i.Vex? {
      VexAt(bs, pos, i);
    } else {
      AtSplit(bs, pos, PrefixBytes(i.prefix), RexBytes(i.rex) + FromOpcode(i));
      RexAt(bs, pos + |PrefixBytes(i.prefix)|, i);
      if i.prefix.Some? { ReadByteAt(bs, pos, i.prefix.value); }
    }
  }
}
