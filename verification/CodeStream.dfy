/**
 Streams of machine instructions with branches that are patched after emission, for any
 instruction format in which encodings read back and a branch ends in a 32-bit displacement:
 `patch_rel32` and `patch_rel32_to` of crates/cv_asm/src/lib.rs.
 */
module CodeStream {
  import opened Common
  import opened Wire

  type i32 = x: int | -0x8000_0000 <= x < 0x8000_0000

  // ----- 32-bit arithmetic -----

  /** `as i32`, and the result of wrapping 32-bit arithmetic. */
  function Wrap(x: int): i32 {
    var u := x % 0x1_0000_0000;
    if u < 0x8000_0000 then u else u - 0x1_0000_0000
  }

  predicate Fits(x: int) { -0x8000_0000 <= x < 0x8000_0000 }

  /** The displacement the emitter computes for a branch that ends at `from`. */
  function Displacement(target: nat, from: nat): i32 { Wrap(Wrap(target) - Wrap(from)) }

  lemma WrapCongruent(x: int) returns (q: int)
    ensures Wrap(x) == x + q * 0x1_0000_0000 && (Fits(x) ==> Wrap(x) == x)
  {
    q := -(x / 0x1_0000_0000) - (if x % 0x1_0000_0000 < 0x8000_0000 then 0 else 1);
  }

  /** The computed displacement leads to the target exactly if the distance has 32 bits; below
      2^31 the subtraction itself does not overflow. */
  lemma DisplacementExactIff(target: nat, from: nat)
    ensures Displacement(target, from) == target - from <==> Fits(target - from)
    ensures target < 0x8000_0000 && from < 0x8000_0000 ==> Fits(target - from) && Fits(Wrap(target) - Wrap(from))
  {
    var p := WrapCongruent(target);
    var q := WrapCongruent(from);
    var r := WrapCongruent(Wrap(target) - Wrap(from));
    assert Displacement(target, from) == target - from + (p - q + r) * 0x1_0000_0000;
  }

  function Word(v: i32): (r: bytes)
    ensures |r| == 4
  {
    Le(if v < 0 then v + 0x1_0000_0000 else v, WORD)
  }

  // ----- Formats -----

  /** `rel` is the displacement of a branch and `retarget` replaces it. */
  datatype Format<!I> = Format(
    enc: I -> bytes, dec: (bytes, nat) -> Parsed<I>, ok: I -> bool,
    branch: I -> bool, rel: I -> int, retarget: (I, i32) -> I)

  ghost predicate ReadsBackInstr<I(!new)>(fmt: Format<I>, i: I) {
    |fmt.enc(i)| >= 1 && forall bs, p: nat :: At(bs, p, fmt.enc(i)) ==> fmt.dec(bs, p) == Ok(i, p + |fmt.enc(i)|)
  }

  ghost predicate Retargets<I>(fmt: Format<I>, i: I, r: i32) {
    var j := fmt.retarget(i, r);
    && fmt.ok(j) && fmt.branch(j) && fmt.rel(j) == r
    && |fmt.enc(i)| >= 4 && fmt.enc(j) == fmt.enc(i)[..|fmt.enc(i)| - 4] + Word(r)
  }

  ghost predicate Lawful<I(!new)>(fmt: Format<I>) {
    && (forall i :: fmt.ok(i) ==> ReadsBackInstr(fmt, i))
    && (forall i, r: i32 {:trigger fmt.retarget(i, r)} :: fmt.ok(i) && fmt.branch(i) ==> Retargets(fmt, i, r))
  }

  // ----- Streams -----

  /** Repeated reads up to the end. */
  function UntilEnd<I>(dec: (bytes, nat) -> Parsed<I>, bs: bytes, pos: nat): Option<seq<I>>
    decreases |bs| - pos
  {
    if pos >= |bs| then Some([]) else
      match dec(bs, pos)
      case Fail => None
      case Ok(i, p) =>
        if p <= pos then None else
          match UntilEnd(dec, bs, p)
          case None => None
          case Some(rest) => Some([i] + rest)
  }

  lemma {:induction false} UntilEndAt<I(!new)>(fmt: Format<I>, bs: bytes, pos: nat, prog: seq<I>)
    requires Lawful(fmt) && Every(fmt.ok, prog) && At(bs, pos, Concat(fmt.enc, prog)) && pos + |Concat(fmt.enc, prog)| == |bs|
    ensures UntilEnd(fmt.dec, bs, pos) == Some(prog)
    decreases |prog|
  {
    if prog != [] {
      var i, rest := prog[0], prog[1..];
      AtSplit(bs, pos, fmt.enc(i), Concat(fmt.enc, rest));
      assert ReadsBackInstr(fmt, i);
      UntilEndAt(fmt, bs, pos + |fmt.enc(i)|, rest);
      assert prog == [i] + rest;
    }
  }

  /** Disassembling the code of an instruction list gives that list. */
  lemma DisassemblyIsExact<I(!new)>(fmt: Format<I>, prog: seq<I>)
    requires Lawful(fmt) && Every(fmt.ok, prog)
    ensures UntilEnd(fmt.dec, Concat(fmt.enc, prog), 0) == Some(prog)
  {
    UntilEndAt(fmt, Concat(fmt.enc, prog), 0, prog);
  }

  lemma {:induction false} ConcatAppend<I>(enc: I -> bytes, a: seq<I>, b: seq<I>)
    ensures Concat(enc, a + b) == Concat(enc, a) + Concat(enc, b)
    decreases |a|
  {
    if a == [] {
      assert a + b == b;
    } else {
      ConcatAppend(enc, a[1..], b);
      assert (a + b)[1..] == a[1..] + b;
    }
  }

  /** Where instruction `k` starts. */
  function Offset<I>(enc: I -> bytes, prog: seq<I>, k: nat): nat
    requires k <= |prog|
  {
    |Concat(enc, prog[..k])|
  }

  lemma AroundInstr<I>(enc: I -> bytes, prog: seq<I>, k: nat, j: I)
    requires k < |prog|
    ensures Concat(enc, prog[k := j]) == (Concat(enc, prog[..k]) + enc(j)) + Concat(enc, prog[k + 1..])
  {
    assert prog[k := j] == (prog[..k] + [j]) + prog[k + 1..];
    ConcatAppend(enc, prog[..k] + [j], prog[k + 1..]);
    ConcatAppend(enc, prog[..k], [j]);
    assert [j][1..] == [];
    assert Concat(enc, [j]) == enc(j) + Concat(enc, [j][1..]);
  }

  lemma OffsetNext<I>(enc: I -> bytes, prog: seq<I>, k: nat)
    requires k < |prog|
    ensures Offset(enc, prog, k + 1) == Offset(enc, prog, k) + |enc(prog[k])|
  {
    AroundInstr(enc, prog[..k + 1], k, prog[k]);
    assert prog[..k + 1][k := prog[k]] == prog[..k + 1];
    assert prog[..k + 1][..k] == prog[..k] && prog[..k + 1][k + 1..] == [];
  }

  lemma {:induction false} OffsetsGrow<I>(enc: I -> bytes, prog: seq<I>, j: nat, k: nat)
    requires j < k <= |prog| && forall i :: 0 <= i < |prog| ==> |enc(prog[i])| >= 1
    ensures Offset(enc, prog, j) < Offset(enc, prog, k)
    decreases k
  {
    OffsetNext(enc, prog, k - 1);
    if j < k - 1 { OffsetsGrow(enc, prog, j, k - 1); }
  }

  lemma OffsetsDiffer<I>(enc: I -> bytes, prog: seq<I>, j: nat, k: nat)
    requires j <= |prog| && k <= |prog| && forall i :: 0 <= i < |prog| ==> |enc(prog[i])| >= 1
    ensures Offset(enc, prog, j) == Offset(enc, prog, k) ==> j == k
  {
    if j < k { OffsetsGrow(enc, prog, j, k); }
    if k < j { OffsetsGrow(enc, prog, k, j); }
  }

  /** Replacing an instruction by one of the same length moves nothing. */
  lemma OffsetsStay<I>(enc: I -> bytes, prog: seq<I>, k: nat, j: I, n: nat)
    requires k < |prog| && |enc(j)| == |enc(prog[k])| && n <= |prog|
    ensures Offset(enc, prog[k := j], n) == Offset(enc, prog, n)
  {
    var a := prog[..n];
    if k < n {
      AroundInstr(enc, a, k, j);
      AroundInstr(enc, a, k, prog[k]);
      assert a[k := prog[k]] == a && prog[k := j][..n] == a[k := j];
    } else {
      assert prog[k := j][..n] == a;
    }
  }

  // ----- Patching -----

  /** `bs` with `e` written over it at `off`. */
  function Overwrite(bs: bytes, off: nat, e: bytes): (r: bytes)
    requires off + |e| <= |bs|
    ensures |r| == |bs|
  {
    bs[..off] + e + bs[off + |e|..]
  }

  lemma OverwriteTail(before: bytes, after: bytes, a: bytes, x: bytes, y: bytes, c: bytes, e: bytes, off: nat)
    requires before == (a + x) + c && after == (a + y) + c
    requires |e| == 4 <= |x| && y == x[..|x| - 4] + e && off == |a| + |x| - 4
    ensures off + 4 <= |before| && Overwrite(before, off, e) == after
  {
    assert before[..off] == a + x[..|x| - 4];
    assert before[off + 4..] == c;
  }

  /** Writing a displacement into the code is retargeting the branch in the list. */
  lemma PatchIsRetarget<I(!new)>(fmt: Format<I>, prog: seq<I>, k: nat, r: i32)
    requires Lawful(fmt) && Every(fmt.ok, prog) && k < |prog| && fmt.branch(prog[k])
    ensures |fmt.enc(prog[k])| >= 4 && |fmt.enc(fmt.retarget(prog[k], r))| == |fmt.enc(prog[k])|
    ensures 4 <= Offset(fmt.enc, prog, k + 1) <= |Concat(fmt.enc, prog)|
    ensures Overwrite(Concat(fmt.enc, prog), Offset(fmt.enc, prog, k + 1) - 4, Word(r)) ==
            Concat(fmt.enc, prog[k := fmt.retarget(prog[k], r)])
  {
    assert Retargets(fmt, prog[k], r);
    OffsetNext(fmt.enc, prog, k);
    PatchOne(fmt.enc, prog, k, fmt.retarget(prog[k], r), Word(r));
  }

  lemma AtInstr<I>(enc: I -> bytes, prog: seq<I>, k: nat)
    requires k < |prog|
    ensures Concat(enc, prog) == (Concat(enc, prog[..k]) + enc(prog[k])) + Concat(enc, prog[k + 1..])
  {
    AroundInstr(enc, prog, k, prog[k]);
    assert prog[k := prog[k]] == prog;
  }

  lemma PatchOne<I>(enc: I -> bytes, prog: seq<I>, k: nat, j: I, e: bytes)
    requires k < |prog| && |e| == 4 <= |enc(prog[k])| && enc(j) == enc(prog[k])[..|enc(prog[k])| - 4] + e
    ensures Offset(enc, prog, k) + |enc(prog[k])| <= |Concat(enc, prog)|
    ensures Overwrite(Concat(enc, prog), Offset(enc, prog, k) + |enc(prog[k])| - 4, e) == Concat(enc, prog[k := j])
  {
    AtInstr(enc, prog, k);
    AroundInstr(enc, prog, k, j);
    OverwriteTail(Concat(enc, prog), Concat(enc, prog[k := j]), Concat(enc, prog[..k]), enc(prog[k]), enc(j),
                  Concat(enc, prog[k + 1..]), e, Offset(enc, prog, k) + |enc(prog[k])| - 4);
  }

  // ----- Runs of the emitter -----

  /** A call of the emitter: an instruction, or a patch of the branch emitted as the `k`th
      instruction, to the end of the code so far or to a given offset. */
  datatype Op<I> = Emit(instr: I) | PatchHere(k: nat) | PatchTo(k: nat, target: nat)

  /** The code, the instructions it should consist of, and the targets asked for. */
  datatype State<I> = State(code: bytes, prog: seq<I>, targets: map<nat, nat>)

  function TargetOf<I>(s: State<I>, op: Op<I>): nat
    requires !op.Emit?
  {
    if op.PatchHere? then |s.code| else op.target
  }

  /** Calls that make sense: encodable instructions, and patches of branches over a distance
      that a displacement can hold. */
  ghost predicate Enabled<I>(fmt: Format<I>, s: State<I>, op: Op<I>) {
    if op.Emit? then fmt.ok(op.instr)
    else
      && op.k < |s.prog| && fmt.branch(s.prog[op.k])
      && Offset(fmt.enc, s.prog, op.k + 1) >= 4 && Offset(fmt.enc, s.prog, op.k + 1) <= |s.code|
      && Fits(TargetOf(s, op) - Offset(fmt.enc, s.prog, op.k + 1))
  }

  function Patched<I>(fmt: Format<I>, s: State<I>, k: nat, target: nat): State<I>
    requires k < |s.prog| && 4 <= Offset(fmt.enc, s.prog, k + 1) <= |s.code|
  {
    var end := Offset(fmt.enc, s.prog, k + 1);
    var rel := Displacement(target, end);
    State(Overwrite(s.code, end - 4, Word(rel)), s.prog[k := fmt.retarget(s.prog[k], rel)], s.targets[k := target])
  }

  ghost function Step<I>(fmt: Format<I>, s: State<I>, op: Op<I>): State<I>
    requires Enabled(fmt, s, op)
  {
    match op
    case Emit(i) => State(s.code + fmt.enc(i), s.prog + [i], s.targets)
    case PatchHere(k) => Patched(fmt, s, k, |s.code|)
    case PatchTo(k, target) => Patched(fmt, s, k, target)
  }

  ghost predicate Resolves<I>(fmt: Format<I>, prog: seq<I>, k: nat, target: nat) {
    k < |prog| && fmt.branch(prog[k]) && Offset(fmt.enc, prog, k + 1) + fmt.rel(prog[k]) == target
  }

  /** The code is that of the list, and every patched branch leads where it should. */
  ghost predicate Inv<I>(fmt: Format<I>, s: State<I>) {
    && Every(fmt.ok, s.prog) && s.code == Concat(fmt.enc, s.prog)
    && forall k :: k in s.targets ==> Resolves(fmt, s.prog, k, s.targets[k])
  }

  lemma EmitKeeps<I(!new)>(fmt: Format<I>, s: State<I>, i: I)
    requires Lawful(fmt) && Inv(fmt, s) && fmt.ok(i)
    ensures Inv(fmt, Step(fmt, s, Emit(i)))
  {
    ConcatAppend(fmt.enc, s.prog, [i]);
    assert [i][1..] == [];
    assert Concat(fmt.enc, [i]) == fmt.enc(i) + Concat(fmt.enc, [i][1..]);
    var prog := s.prog + [i];
    forall k | k in s.targets ensures Resolves(fmt, prog, k, s.targets[k]) {
      assert Resolves(fmt, s.prog, k, s.targets[k]);
      assert prog[..k + 1] == s.prog[..k + 1];
    }
  }

  /** Replacing branch `k` by one of the same length that leads to `target`. */
  lemma ReplaceKeepsTargets<I>(fmt: Format<I>, prog: seq<I>, k: nat, j: I, targets: map<nat, nat>, target: nat, h: nat)
    requires k < |prog| && |fmt.enc(j)| == |fmt.enc(prog[k])| && fmt.branch(j)
    requires Offset(fmt.enc, prog, k + 1) + fmt.rel(j) == target
    requires h == k || (h in targets && Resolves(fmt, prog, h, targets[h]))
    ensures Resolves(fmt, prog[k := j], h, if h == k then target else targets[h])
  {
    OffsetsStay(fmt.enc, prog, k, j, h + 1);
  }

  lemma PatchKeeps<I(!new)>(fmt: Format<I>, s: State<I>, k: nat, target: nat)
    requires Lawful(fmt) && Inv(fmt, s) && k < |s.prog| && fmt.branch(s.prog[k])
    requires 4 <= Offset(fmt.enc, s.prog, k + 1) <= |s.code| && Fits(target - Offset(fmt.enc, s.prog, k + 1))
    ensures Inv(fmt, Patched(fmt, s, k, target))
  {
    var end := Offset(fmt.enc, s.prog, k + 1);
    var rel := Displacement(target, end);
    DisplacementExactIff(target, end);
    PatchIsRetarget(fmt, s.prog, k, rel);
    var j := fmt.retarget(s.prog[k], rel);
    assert Retargets(fmt, s.prog[k], rel);
    var targets := s.targets[k := target];
    forall h | h in targets ensures Resolves(fmt, s.prog[k := j], h, targets[h]) {
      ReplaceKeepsTargets(fmt, s.prog, k, j, s.targets, target, h);
    }
    assert Every(fmt.ok, s.prog[k := j]);
  }

  lemma StepKeeps<I(!new)>(fmt: Format<I>, s: State<I>, op: Op<I>)
    requires Lawful(fmt) && Inv(fmt, s) && Enabled(fmt, s, op)
    ensures Inv(fmt, Step(fmt, s, op))
  {
    match op
    case Emit(i) => EmitKeeps(fmt, s, i);
    case PatchHere(k) => PatchKeeps(fmt, s, k, |s.code|);
    case PatchTo(k, target) => PatchKeeps(fmt, s, k, target);
  }

  /** Patches move no instruction boundary and keep the length. */
  lemma PatchMovesNothing<I(!new)>(fmt: Format<I>, s: State<I>, k: nat, target: nat, n: nat)
    requires Lawful(fmt) && Inv(fmt, s) && k < |s.prog| && fmt.branch(s.prog[k]) && n <= |s.prog|
    requires 4 <= Offset(fmt.enc, s.prog, k + 1) <= |s.code|
    ensures |Patched(fmt, s, k, target).code| == |s.code|
    ensures Offset(fmt.enc, Patched(fmt, s, k, target).prog, n) == Offset(fmt.enc, s.prog, n)
    ensures n < |s.prog| && n != k ==> Patched(fmt, s, k, target).prog[n] == s.prog[n]
  {
    var rel := Displacement(target, Offset(fmt.enc, s.prog, k + 1));
    PatchIsRetarget(fmt, s.prog, k, rel);
    OffsetsStay(fmt.enc, s.prog, k, fmt.retarget(s.prog[k], rel), n);
  }

  ghost function Run<I>(fmt: Format<I>, ops: seq<Op<I>>): Option<State<I>> {
    if ops == [] then Some(State([], [], map[])) else
      var before := Run(fmt, ops[..|ops| - 1]);
      if before.Some? && Enabled(fmt, before.value, ops[|ops| - 1]) then Some(Step(fmt, before.value, ops[|ops| - 1])) else None
  }

  lemma {:induction false} RunKeeps<I(!new)>(fmt: Format<I>, ops: seq<Op<I>>)
    requires Lawful(fmt) && Run(fmt, ops).Some?
    ensures Inv(fmt, Run(fmt, ops).value)
  {
    if ops != [] {
      RunKeeps(fmt, ops[..|ops| - 1]);
      StepKeeps(fmt, Run(fmt, ops[..|ops| - 1]).value, ops[|ops| - 1]);
    }
  }

  /** After any run of emissions and patches the code disassembles to the emitted instructions,
      and every patched branch leads to the target it was last given. */
  lemma RunsDisassemble<I(!new)>(fmt: Format<I>, ops: seq<Op<I>>)
    requires Lawful(fmt) && Run(fmt, ops).Some?
    ensures var s := Run(fmt, ops).value;
            && UntilEnd(fmt.dec, s.code, 0) == Some(s.prog)
            && forall k :: k in s.targets ==> Resolves(fmt, s.prog, k, s.targets[k])
  {
    RunKeeps(fmt, ops);
    DisassemblyIsExact(fmt, Run(fmt, ops).value.prog);
  }
}
