/**
 Little-endian, length-prefixed bytes and the bounds-checked reader of
 crates/cv_browser/src/idb_persist.rs (lines 164-221).
 */
module Wire {
  import opened Common

  type byte = x: int | 0 <= x < 256
  type bytes = seq<byte>

  /** The result of a read: nothing, or a value and the position after it. */
  datatype Parsed<+T> = Fail | Ok(value: T, pos: nat) {
    predicate IsFailure() { Fail? }

    function PropagateFailure<U>(): Parsed<U>
      requires Fail?
    {
      Fail
    }

    function Extract(): (T, nat)
      requires Ok?
    {
      (value, pos)
    }
  }

  // ----- Integers -----

  /** The number of bytes of a `u32` and of an `f64` or `u64`. */
  const WORD: nat := 4
  const DOUBLE: nat := 8

  function Pow256(n: nat): nat { if n == 0 then 1 else 256 * Pow256(n - 1) }

  /** Byte `i` of `v`, counted from the least significant. */
  function ByteOf(v: nat, i: nat): byte
    decreases i
  {
    if i == 0 then v % 256 else ByteOf(v / 256, i - 1)
  }

  /** The `n` low bytes of `v`, least significant first; higher bytes are cut off. */
  function Le(v: nat, n: nat): (r: bytes)
    ensures |r| == n
  {
    seq(n, i requires 0 <= i < n => ByteOf(v, i))
  }

  function FromLe(bs: bytes): nat {
    if bs == [] then 0 else bs[0] + 256 * FromLe(bs[1..])
  }

  /** Division with remainder is unique. */
  lemma SameRemainder(m: nat, d: int, r: nat, t: nat)
    requires r < m && t < m && m * d == t - r
    ensures r == t
  {
  }

  lemma ModIs(x: nat, m: nat, a: nat, r: nat)
    requires r < m && x == m * a + r
    ensures x % m == r
  {
    var q, t := x / m, x % m;
    assert m * a + r == m * q + t;
    assert m * (a - q) == m * a - m * q;
    SameRemainder(m, a - q, r, t);
  }

  /** What is left of a number when its `n` low bytes are read back. */
  lemma {:induction false} LeCut(v: nat, n: nat)
    ensures Pow256(n) > 0 && FromLe(Le(v, n)) == v % Pow256(n)
  {
    if n == 0 {
      assert Le(v, n) == [];
    } else {
      LeCut(v / 256, n - 1);
      assert Le(v, n)[0] == ByteOf(v, 0);
      forall i | 0 <= i < n - 1 ensures Le(v, n)[1..][i] == Le(v / 256, n - 1)[i] {
        assert ByteOf(v, i + 1) == ByteOf(v / 256, i);
      }
      assert Le(v, n)[1..] == Le(v / 256, n - 1);
      ModOf256(v, Pow256(n - 1));
    }
  }

  lemma ModOf256(v: nat, m: nat)
    requires m > 0
    ensures v % (256 * m) == v % 256 + 256 * (v / 256 % m)
  {
    var a, b := v / 256 / m, v / 256 % m;
    assert v / 256 == m * a + b;
    assert v == 256 * (m * a + b) + v % 256;
    assert 256 * (m * a) == (256 * m) * a;
    ModIs(v, 256 * m, a, v % 256 + 256 * b);
  }

  lemma LeRoundTrip(v: nat, n: nat)
    requires v < Pow256(n)
    ensures FromLe(Le(v, n)) == v
  {
    LeCut(v, n);
    ModIs(v, Pow256(n), 0, v);
  }

  lemma {:induction false} FromLeBound(bs: bytes)
    ensures FromLe(bs) < Pow256(|bs|)
  {
    if bs != [] { FromLeBound(bs[1..]); }
  }

  /** The least significant byte comes first. */
  lemma WordBytes(v: nat)
    ensures Le(v, WORD) == [v % 256, v / 256 % 256, v / 0x1_0000 % 256, v / 0x100_0000 % 256]
  {
    assert ByteOf(v, 0) == v % 256 && ByteOf(v, 1) == v / 256 % 256;
    assert ByteOf(v, 2) == v / 256 / 256 % 256 && ByteOf(v, 3) == v / 256 / 256 / 256 % 256;
  }

  // ----- Strings -----

  /** Between characters, or expecting `n` more bytes of which the next is in a given range. */
  datatype Utf8State = Start | Expect(n: nat, lo: int, hi: int) | Bad

  /** Table 3-7 of the Unicode Standard, byte by byte. */
  function Utf8Step(st: Utf8State, b: byte): Utf8State {
    match st
    case Start =>
      if b <= 0x7F then Start
      else if b < 0xC2 || b > 0xF4 then Bad
      else if b <= 0xDF then Expect(1, 0x80, 0xBF)
      else if b <= 0xEF then Expect(2, if b == 0xE0 then 0xA0 else 0x80, if b == 0xED then 0x9F else 0xBF)
      else Expect(3, if b == 0xF0 then 0x90 else 0x80, if b == 0xF4 then 0x8F else 0xBF)
    case Expect(n, lo, hi) =>
      if !(lo <= b <= hi) then Bad else if n <= 1 then Start else Expect(n - 1, 0x80, 0xBF)
    case Bad => Bad
  }

  function Utf8Run(st: Utf8State, s: bytes): Utf8State {
    if s == [] then st else Utf8Step(Utf8Run(st, s[..|s| - 1]), s[|s| - 1])
  }

  predicate ValidUtf8(s: bytes) { Utf8Run(Start, s) == Start }

  /** Code points that are characters. */
  predicate IsScalar(c: nat) { c < 0xD800 || 0xE000 <= c < 0x11_0000 }

  /** The UTF-8 form of a character. */
  function Utf8Char(c: nat): bytes
    requires IsScalar(c)
  {
    if c < 0x80 then [c]
    else if c < 0x800 then [0xC0 + c / 64, 0x80 + c % 64]
    else if c < 0x1_0000 then [0xE0 + c / 4096, 0x80 + c / 64 % 64, 0x80 + c % 64]
    else [0xF0 + c / 0x4_0000, 0x80 + c / 4096 % 64, 0x80 + c / 64 % 64, 0x80 + c % 64]
  }

  function Utf8(cs: seq<nat>): bytes
    requires forall i :: 0 <= i < |cs| ==> IsScalar(cs[i])
  {
    if cs == [] then [] else Utf8Char(cs[0]) + Utf8(cs[1..])
  }

  lemma {:induction false} RunFront(st: Utf8State, s: bytes)
    requires s != []
    ensures Utf8Run(st, s) == Utf8Run(Utf8Step(st, s[0]), s[1..])
    decreases |s|
  {
    if |s| == 1 {
      assert s[..0] == [] && s[1..] == [];
    } else {
      var n := |s| - 1;
      RunFront(st, s[..n]);
      assert s[..n][1..] == s[1..][..n - 1] && s[..n][0] == s[0] && s[1..][n - 1] == s[n];
    }
  }

  lemma {:induction false} BadStays(s: bytes)
    ensures Utf8Run(Bad, s) == Bad
  {
    if s != [] { BadStays(s[..|s| - 1]); }
  }

  /** One byte of an expected rest. */
  lemma RestByte(n: nat, lo: int, hi: int, s: bytes)
    requires Utf8Run(Expect(n, lo, hi), s) == Start
    ensures s != [] && lo <= s[0] <= hi && Utf8Run(if n <= 1 then Start else Expect(n - 1, 0x80, 0xBF), s[1..]) == Start
  {
    if s != [] {
      RunFront(Expect(n, lo, hi), s);
      BadStays(s[1..]);
    }
  }

  lemma {:induction false} RunAppend(st: Utf8State, a: bytes, b: bytes)
    ensures Utf8Run(st, a + b) == Utf8Run(Utf8Run(st, a), b)
    decreases |b|
  {
    if b == [] {
      assert a + b == a;
    } else {
      assert (a + b)[..|a + b| - 1] == a + b[..|b| - 1];
      RunAppend(st, a, b[..|b| - 1]);
    }
  }

  lemma RunOne(st: Utf8State, a: byte)
    ensures Utf8Run(st, [a]) == Utf8Step(st, a)
  {
    assert [a][..0] == [];
  }

  lemma RunTwo(st: Utf8State, a: byte, b: byte)
    ensures Utf8Run(st, [a, b]) == Utf8Step(Utf8Step(st, a), b)
  {
    assert [a, b] == [a] + [b];
    RunAppend(st, [a], [b]);
    RunOne(st, a);
    RunOne(Utf8Step(st, a), b);
  }

  lemma CharEnds(c: nat)
    requires IsScalar(c)
    ensures Utf8Run(Start, Utf8Char(c)) == Start
  {
    if c < 0x80 {
      RunOne(Start, c);
    } else if c < 0x800 {
      RunTwo(Start, 0xC0 + c / 64, 0x80 + c % 64);
    } else if c < 0x1_0000 {
      ThreeBytes(c);
    } else {
      FourBytes(c);
    }
  }

  lemma ThreeBytes(c: nat)
    requires IsScalar(c) && 0x800 <= c < 0x1_0000
    ensures Utf8Run(Start, Utf8Char(c)) == Start
  {
    var a, b, d := 0xE0 + c / 4096, 0x80 + c / 64 % 64, 0x80 + c % 64;
    assert Utf8Char(c) == [a, b] + [d];
    RunAppend(Start, [a, b], [d]);
    RunTwo(Start, a, b);
    RunOne(Utf8Step(Utf8Step(Start, a), b), d);
    assert c / 64 == (a - 0xE0) * 64 + (b - 0x80);
  }

  lemma FourBytes(c: nat)
    requires IsScalar(c) && c >= 0x1_0000
    ensures Utf8Run(Start, Utf8Char(c)) == Start
  {
    var a, b, d, e := 0xF0 + c / 0x4_0000, 0x80 + c / 4096 % 64, 0x80 + c / 64 % 64, 0x80 + c % 64;
    assert Utf8Char(c) == [a, b] + [d, e];
    RunAppend(Start, [a, b], [d, e]);
    RunTwo(Start, a, b);
    RunTwo(Utf8Step(Utf8Step(Start, a), b), d, e);
    assert c / 4096 == (a - 0xF0) * 64 + (b - 0x80);
  }

  lemma TwoFrom(a: byte, b: byte) returns (c: nat)
    requires 0xC2 <= a <= 0xDF && 0x80 <= b <= 0xBF
    ensures IsScalar(c) && Utf8Char(c) == [a, b]
  {
    var x: int, y: int := a - 0xC0, b - 0x80;
    c := x * 64 + y;
  }

  lemma ThreeFrom(a: byte, b: byte, d: byte) returns (c: nat)
    requires 0xE0 <= a <= 0xEF && 0x80 <= b <= 0xBF && 0x80 <= d <= 0xBF && (a == 0xE0 ==> b >= 0xA0) && (a == 0xED ==> b <= 0x9F)
    ensures IsScalar(c) && Utf8Char(c) == [a, b, d]
  {
    var x: int, y: int, z: int := a - 0xE0, b - 0x80, d - 0x80;
    c := (x * 64 + y) * 64 + z;
    assert c / 64 == x * 64 + y;
    assert c / 4096 == x;
  }

  lemma FourFrom(a: byte, b: byte, d: byte, e: byte) returns (c: nat)
    requires 0xF0 <= a <= 0xF4 && 0x80 <= b <= 0xBF && 0x80 <= d <= 0xBF && 0x80 <= e <= 0xBF
    requires (a == 0xF0 ==> b >= 0x90) && (a == 0xF4 ==> b <= 0x8F)
    ensures IsScalar(c) && Utf8Char(c) == [a, b, d, e]
  {
    var x: int, y: int, z: int, w: int := a - 0xF0, b - 0x80, d - 0x80, e - 0x80;
    c := ((x * 64 + y) * 64 + z) * 64 + w;
    assert c / 64 == (x * 64 + y) * 64 + z;
    assert c / 4096 == x * 64 + y;
    assert c / 0x4_0000 == x;
  }

  /** The first character of valid text. */
  lemma FirstChar(s: bytes) returns (c: nat)
    requires s != [] && ValidUtf8(s)
    ensures IsScalar(c) && |Utf8Char(c)| <= |s| && s[..|Utf8Char(c)|] == Utf8Char(c) && ValidUtf8(s[|Utf8Char(c)|..])
  {
    RunFront(Start, s);
    BadStays(s[1..]);
    if s[0] <= 0x7F {
      c := s[0];
    } else {
      var st := Utf8Step(Start, s[0]);
      RestByte(st.n, st.lo, st.hi, s[1..]);
      assert s[1..][1..] == s[2..];
      if s[0] <= 0xDF {
        c := TwoFrom(s[0], s[1]);
      } else {
        RestByte(st.n - 1, 0x80, 0xBF, s[2..]);
        assert s[2..][1..] == s[3..];
        if s[0] <= 0xEF {
          c := ThreeFrom(s[0], s[1], s[2]);
        } else {
          RestByte(1, 0x80, 0xBF, s[3..]);
          assert s[3..][1..] == s[4..];
          c := FourFrom(s[0], s[1], s[2], s[3]);
        }
      }
    }
  }

  /** Exactly the UTF-8 forms of character sequences are accepted. */
  lemma {:induction false} Utf8IsValid(cs: seq<nat>)
    requires forall i :: 0 <= i < |cs| ==> IsScalar(cs[i])
    ensures ValidUtf8(Utf8(cs))
  {
    if cs != [] {
      Utf8IsValid(cs[1..]);
      CharEnds(cs[0]);
      RunAppend(Start, Utf8Char(cs[0]), Utf8(cs[1..]));
    }
  }

  lemma {:induction false} ValidIsUtf8(s: bytes) returns (cs: seq<nat>)
    requires ValidUtf8(s)
    ensures (forall i :: 0 <= i < |cs| ==> IsScalar(cs[i])) && s == Utf8(cs)
    decreases |s|
  {
    if s == [] {
      cs := [];
    } else {
      var c := FirstChar(s);
      var n := |Utf8Char(c)|;
      var rest := ValidIsUtf8(s[n..]);
      cs := [c] + rest;
      assert cs[1..] == rest && s == s[..n] + s[n..];
    }
  }

  function StrBytes(s: bytes): (r: bytes)
    ensures |r| == 4 + |s|
  {
    Le(|s|, WORD) + s
  }

  // ----- Reads -----

  function Take(bs: bytes, pos: nat, n: nat): (r: Parsed<bytes>)
    ensures r.Ok? ==> r.pos == pos + n <= |bs| && |r.value| == n
  {
    if pos + n <= |bs| then Ok(bs[pos..pos + n], pos + n) else Fail
  }

  function ReadByte(bs: bytes, pos: nat): (r: Parsed<byte>)
    ensures r.Ok? ==> pos < r.pos <= |bs|
  {
    if pos + 1 <= |bs| then Ok(bs[pos], pos + 1) else Fail
  }

  function ReadLe(bs: bytes, pos: nat, n: nat): (r: Parsed<nat>)
    ensures r.Ok? ==> r.pos == pos + n <= |bs|
  {
    match Take(bs, pos, n)
    case Fail => Fail
    case Ok(b, p) => Ok(FromLe(b), p)
  }

  function ReadStr(bs: bytes, pos: nat): (r: Parsed<bytes>)
    ensures r.Ok? ==> pos < r.pos <= |bs|
  {
    match ReadLe(bs, pos, WORD)
    case Fail => Fail
    case Ok(n, p) =>
      match Take(bs, p, n)
      case Fail => Fail
      case Ok(s, p2) => if ValidUtf8(s) then Ok(s, p2) else Fail
  }

  // ----- An encoding found at a position -----

  /** The bytes `e` stand at position `pos` of `bs`. */
  predicate At(bs: bytes, pos: nat, e: bytes) {
    pos + |e| <= |bs| && forall i :: 0 <= i < |e| ==> e[i] == bs[pos + i]
  }

  lemma AtSplit(bs: bytes, pos: nat, a: bytes, b: bytes)
    requires At(bs, pos, a + b)
    ensures At(bs, pos, a) && At(bs, pos + |a|, b)
  {
    var e := a + b;
    assert forall i :: 0 <= i < |a| ==> a[i] == e[i];
    assert forall i :: 0 <= i < |b| ==> b[i] == e[|a| + i];
  }

  lemma TakeAt(bs: bytes, pos: nat, e: bytes)
    requires At(bs, pos, e)
    ensures Take(bs, pos, |e|) == Ok(e, pos + |e|)
  {
    assert bs[pos..pos + |e|] == e;
  }

  lemma ReadByteAt(bs: bytes, pos: nat, b: byte)
    requires At(bs, pos, [b])
    ensures ReadByte(bs, pos) == Ok(b, pos + 1)
  {
    assert [b][0] == bs[pos];
  }

  lemma ReadLeAt(bs: bytes, pos: nat, v: nat, n: nat)
    requires At(bs, pos, Le(v, n)) && v < Pow256(n)
    ensures ReadLe(bs, pos, n) == Ok(v, pos + n)
  {
    TakeAt(bs, pos, Le(v, n));
    LeRoundTrip(v, n);
  }

  lemma Pow256Values()
    ensures Pow256(WORD) == 0x1_0000_0000 && Pow256(DOUBLE) == 0x1_0000_0000_0000_0000
  {
    assert Pow256(2) == 65536;
    assert Pow256(6) == 0x1_0000_0000_0000;
  }

  /** A count that was read has 32 bits. */
  lemma WordIsShort(bs: bytes, pos: nat)
    requires ReadLe(bs, pos, WORD).Ok?
    ensures ReadLe(bs, pos, WORD).value < 0x1_0000_0000
  {
    FromLeBound(bs[pos..pos + WORD]);
    Pow256Values();
  }

  lemma StrIsShort(bs: bytes, pos: nat)
    requires ReadStr(bs, pos).Ok?
    ensures |ReadStr(bs, pos).value| < 0x1_0000_0000
  {
    WordIsShort(bs, pos);
  }

  lemma ShortStrAt(bs: bytes, pos: nat, s: bytes)
    requires At(bs, pos, StrBytes(s)) && ValidUtf8(s) && |s| < 0x1_0000_0000
    ensures ReadStr(bs, pos) == Ok(s, pos + 4 + |s|)
  {
    var n := WORD;
    assert |s| < Pow256(n) by { Pow256Values(); }
    AtSplit(bs, pos, Le(|s|, n), s);
    ReadLeAt(bs, pos, |s|, n);
    TakeAt(bs, pos + n, s);
  }

  /** A written string is read back, and consumed exactly, if and only if its length has 32 bits. */
  lemma ReadStrAt(bs: bytes, pos: nat, s: bytes)
    requires At(bs, pos, StrBytes(s)) && ValidUtf8(s)
    ensures ReadStr(bs, pos) == Ok(s, pos + 4 + |s|) <==> |s| < 0x1_0000_0000
  {
    if |s| < 0x1_0000_0000 { ShortStrAt(bs, pos, s); }
    if ReadStr(bs, pos).Ok? { StrIsShort(bs, pos); }
  }

  /** How much of a string the written length stands for. */
  function Remainder(s: bytes): (n: nat)
    ensures n <= |s|
  {
    |s| % 0x1_0000_0000
  }

  /** Every written string reads back as its part of that length, if this part ends between
      characters, and not at all otherwise. */
  lemma ReadStrCut(bs: bytes, pos: nat, s: bytes)
    requires At(bs, pos, StrBytes(s))
    ensures ReadStr(bs, pos) ==
            if ValidUtf8(s[..Remainder(s)]) then Ok(s[..Remainder(s)], pos + 4 + Remainder(s)) else Fail
  {
    AtSplit(bs, pos, Le(|s|, WORD), s);
    TakeAt(bs, pos, Le(|s|, WORD));
    LeCut(|s|, WORD);
    Pow256Values();
    TakeAt(bs, pos + WORD, s[..Remainder(s)]);
  }

  // ----- Longer input -----

  /** A read that succeeds on a prefix succeeds with the same result on the whole. */
  lemma ReadsExtend(bs: bytes, more: bytes, pos: nat, n: nat)
    ensures Take(bs, pos, n).Ok? ==> Take(bs + more, pos, n) == Take(bs, pos, n)
    ensures ReadByte(bs, pos).Ok? ==> ReadByte(bs + more, pos) == ReadByte(bs, pos)
    ensures ReadLe(bs, pos, n).Ok? ==> ReadLe(bs + more, pos, n) == ReadLe(bs, pos, n)
  {
    if pos + n <= |bs| {
      assert (bs + more)[pos..pos + n] == bs[pos..pos + n];
    }
  }

  lemma ReadStrExtends(bs: bytes, more: bytes, pos: nat)
    ensures ReadStr(bs, pos).Ok? ==> ReadStr(bs + more, pos) == ReadStr(bs, pos)
  {
    ReadsExtend(bs, more, pos, WORD);
    var n := ReadLe(bs, pos, WORD);
    if n.Ok? {
      ReadsExtend(bs, more, n.pos, n.value);
    }
  }

  /** A read that ends within the first `k` bytes gives the same result on those bytes alone. */
  lemma ReadsShrink(bs: bytes, k: nat, pos: nat, n: nat)
    requires k <= |bs|
    ensures pos + n <= k ==> Take(bs[..k], pos, n) == Take(bs, pos, n) && ReadLe(bs[..k], pos, n) == ReadLe(bs, pos, n)
    ensures pos + 1 <= k ==> ReadByte(bs[..k], pos) == ReadByte(bs, pos)
  {
    if pos + n <= k {
      assert bs[..k][pos..pos + n] == bs[pos..pos + n];
    }
  }

  lemma ReadStrShrinks(bs: bytes, k: nat, pos: nat)
    requires k <= |bs| && ReadStr(bs, pos).Ok? && ReadStr(bs, pos).pos <= k
    ensures ReadStr(bs[..k], pos) == ReadStr(bs, pos)
  {
    ReadsShrink(bs, k, pos, WORD);
    var n := ReadLe(bs, pos, WORD);
    ReadsShrink(bs, k, n.pos, n.value);
  }

  // ----- Counted lists -----

  /** `n` reads one after the other. */
  function Many<T>(f: (bytes, nat) -> Parsed<T>, bs: bytes, pos: nat, n: nat): Parsed<seq<T>>
    decreases n
  {
    if n == 0 then Ok([], pos)
    else
      var (x, p) :- f(bs, pos);
      var (xs, q) :- Many(f, bs, p, n - 1);
      Ok([x] + xs, q)
  }

  function Concat<U>(enc: U -> bytes, us: seq<U>): bytes {
    if us == [] then [] else enc(us[0]) + Concat(enc, us[1..])
  }

  function Mapped<T, U>(g: U -> T, us: seq<U>): seq<T> {
    seq(|us|, i requires 0 <= i < |us| => g(us[i]))
  }

  predicate Every<U>(ok: U -> bool, us: seq<U>) {
    forall i :: 0 <= i < |us| ==> ok(us[i])
  }

  lemma EveryHead<U>(ok: U -> bool, us: seq<U>)
    requires us != []
    ensures Every(ok, us) == (ok(us[0]) && Every(ok, us[1..]))
  {
    assert forall i :: 0 < i < |us| ==> us[i] == us[1..][i - 1];
  }

  lemma MappedHead<T, U>(g: U -> T, us: seq<U>)
    requires us != []
    ensures Mapped(g, us) == [g(us[0])] + Mapped(g, us[1..])
    ensures Mapped(g, us)[0] == g(us[0]) && Mapped(g, us)[1..] == Mapped(g, us[1..])
  {
  }

  lemma {:induction false} ConcatLength<U(!new)>(enc: U -> bytes, us: seq<U>)
    requires forall u :: |enc(u)| >= 1
    ensures |Concat(enc, us)| >= |us|
    decreases |us|
  {
    if us != [] {
      ConcatLength(enc, us[1..]);
    }
  }

  /** Where the encoding of `u` stands, `f` reads `g(u)` and all of it, or fails if `u` is not ok. */
  ghost predicate ReadsBack<T, U>(f: (bytes, nat) -> Parsed<T>, enc: U -> bytes, g: U -> T, ok: U -> bool,
                                  bs: bytes, u: U) {
    forall p: nat :: At(bs, p, enc(u)) ==> f(bs, p) == if ok(u) then Ok(g(u), p + |enc(u)|) else Fail
  }

  /** If each element reads back (or fails) where its encoding stands, so does the list: it
      reads back in full, or fails as soon as one element does. */
  lemma {:induction false} ManyAt<T, U>(f: (bytes, nat) -> Parsed<T>, enc: U -> bytes, g: U -> T, ok: U -> bool,
                                       bs: bytes, pos: nat, us: seq<U>)
    requires At(bs, pos, Concat(enc, us))
    requires forall i :: 0 <= i < |us| ==> ReadsBack(f, enc, g, ok, bs, us[i])
    ensures Many(f, bs, pos, |us|) ==
            if Every(ok, us) then Ok(Mapped(g, us), pos + |Concat(enc, us)|) else Fail
    decreases |us|
  {
    if us == [] {
      assert Mapped(g, us) == [];
    } else {
      var u, rest := us[0], us[1..];
      AtSplit(bs, pos, enc(u), Concat(enc, rest));
      assert ReadsBack(f, enc, g, ok, bs, u);
      assert f(bs, pos) == if ok(u) then Ok(g(u), pos + |enc(u)|) else Fail;
      EveryHead(ok, us);
      MappedHead(g, us);
      ManyAt(f, enc, g, ok, bs, pos + |enc(u)|, rest);
    }
  }

  /** Where the encoding of `u` stands and `f` reads `g(u)`, `u` is good and was read to its end. */
  ghost predicate Confirms<T, U>(f: (bytes, nat) -> Parsed<T>, enc: U -> bytes, g: U -> T, good: U -> bool,
                                 bs: bytes, u: U) {
    forall p: nat :: At(bs, p, enc(u)) && f(bs, p).Ok? && f(bs, p).value == g(u) ==>
      good(u) && f(bs, p).pos == p + |enc(u)|
  }

  /** If the whole list reads back, every element of it did. */
  lemma {:induction false} ManyConfirms<T, U>(f: (bytes, nat) -> Parsed<T>, enc: U -> bytes, g: U -> T, good: U -> bool,
                                             bs: bytes, pos: nat, us: seq<U>)
    requires At(bs, pos, Concat(enc, us))
    requires forall i :: 0 <= i < |us| ==> Confirms(f, enc, g, good, bs, us[i])
    requires Many(f, bs, pos, |us|).Ok? && Many(f, bs, pos, |us|).value == Mapped(g, us)
    ensures Every(good, us) && Many(f, bs, pos, |us|).pos == pos + |Concat(enc, us)|
    decreases |us|
  {
    if us != [] {
      var u, rest := us[0], us[1..];
      AtSplit(bs, pos, enc(u), Concat(enc, rest));
      assert Confirms(f, enc, g, good, bs, u);
      MappedHead(g, us);
      assert Many(f, bs, pos, |us|).value[1..] == Many(f, bs, f(bs, pos).pos, |rest|).value;
      ManyConfirms(f, enc, g, good, bs, pos + |enc(u)|, rest);
      EveryHead(good, us);
    }
  }

  lemma {:induction false} ManyLength<T>(f: (bytes, nat) -> Parsed<T>, bs: bytes, pos: nat, n: nat)
    requires Many(f, bs, pos, n).Ok?
    ensures |Many(f, bs, pos, n).value| == n
    decreases n
  {
    if n > 0 { ManyLength(f, bs, f(bs, pos).pos, n - 1); }
  }

  /** Reads that move on read no more elements than there are bytes. */
  lemma {:induction false} ManyMoves<T>(f: (bytes, nat) -> Parsed<T>, bs: bytes, pos: nat, n: nat)
    requires (forall p: nat :: f(bs, p).Ok? ==> p < f(bs, p).pos) && Many(f, bs, pos, n).Ok?
    ensures pos + n <= Many(f, bs, pos, n).pos
    decreases n
  {
    if n > 0 { ManyMoves(f, bs, f(bs, pos).pos, n - 1); }
  }

  lemma {:induction false} ManyShrinks<T>(f: (bytes, nat) -> Parsed<T>, bs: bytes, k: nat, pos: nat, n: nat)
    requires k <= |bs| && forall p: nat :: f(bs, p).Ok? ==> p < f(bs, p).pos
    requires forall p: nat :: f(bs, p).Ok? && f(bs, p).pos <= k ==> f(bs[..k], p) == f(bs, p)
    requires Many(f, bs, pos, n).Ok? && Many(f, bs, pos, n).pos <= k
    ensures Many(f, bs[..k], pos, n) == Many(f, bs, pos, n)
    decreases n
  {
    if n > 0 {
      ManyMoves(f, bs, f(bs, pos).pos, n - 1);
      ManyShrinks(f, bs, k, f(bs, pos).pos, n - 1);
    }
  }

  lemma {:induction false} ManyExtends<T>(f: (bytes, nat) -> Parsed<T>, bs: bytes, more: bytes, pos: nat, n: nat)
    requires forall p: nat :: f(bs, p).Ok? ==> f(bs + more, p) == f(bs, p)
    requires Many(f, bs, pos, n).Ok?
    ensures Many(f, bs + more, pos, n) == Many(f, bs, pos, n)
    decreases n
  {
    if n > 0 {
      ManyExtends(f, bs, more, f(bs, pos).pos, n - 1);
    }
  }

  lemma {:induction false} ManyStays<T>(f: (bytes, nat) -> Parsed<T>, bs: bytes, pos: nat, n: nat)
    requires forall p: nat :: f(bs, p).Ok? ==> f(bs, p).pos <= |bs|
    requires pos <= |bs| && Many(f, bs, pos, n).Ok?
    ensures Many(f, bs, pos, n).pos <= |bs|
    decreases n
  {
    if n > 0 {
      ManyStays(f, bs, f(bs, pos).pos, n - 1);
    }
  }

  /** Successive reads of `xs`: element `j` was read from `ps[j]` up to `ps[j + 1]`. */
  ghost predicate Chain<T>(f: (bytes, nat) -> Parsed<T>, bs: bytes, ps: seq<nat>, xs: seq<T>) {
    |ps| == |xs| + 1 && forall j :: 0 <= j < |xs| ==> f(bs, ps[j]) == Ok(xs[j], ps[j + 1])
  }

  lemma ChainGrows<T>(f: (bytes, nat) -> Parsed<T>, bs: bytes, ps: seq<nat>, xs: seq<T>)
    requires Chain(f, bs, ps, xs) && f(bs, ps[|xs|]).Ok?
    ensures Chain(f, bs, ps + [f(bs, ps[|xs|]).pos], xs + [f(bs, ps[|xs|]).value])
  {
  }

  lemma {:induction false} ChainThenMany<T>(f: (bytes, nat) -> Parsed<T>, bs: bytes, ps: seq<nat>, xs: seq<T>, k: nat, n: nat)
    requires Chain(f, bs, ps, xs) && k <= |xs| <= n
    ensures var rest := Many(f, bs, ps[|xs|], n - |xs|);
            Many(f, bs, ps[k], n - k) == if rest.Fail? then Fail else Ok(xs[k..] + rest.value, rest.pos)
    decreases |xs| - k
  {
    var rest := Many(f, bs, ps[|xs|], n - |xs|);
    if k == |xs| {
      assert rest.Ok? ==> xs[k..] + rest.value == rest.value;
    } else {
      ChainThenMany(f, bs, ps, xs, k + 1, n);
      assert rest.Ok? ==> xs[k..] + rest.value == [xs[k]] + (xs[k + 1..] + rest.value);
    }
  }

  /** The end of a counted reading loop: all were read, or the next one could not be. */
  lemma ChainIsMany<T>(f: (bytes, nat) -> Parsed<T>, bs: bytes, ps: seq<nat>, xs: seq<T>, n: nat)
    requires Chain(f, bs, ps, xs) && |xs| <= n
    ensures |xs| == n ==> Many(f, bs, ps[0], n) == Ok(xs, ps[n])
    ensures |xs| < n && f(bs, ps[|xs|]).Fail? ==> Many(f, bs, ps[0], n) == Fail
  {
    ChainThenMany(f, bs, ps, xs, 0, n);
    assert xs[0..] + [] == xs;
  }

  /** Moving one piece from what is left to what is written. */
  lemma Shift(written: bytes, piece: bytes, left: bytes, whole: bytes)
    requires written + (piece + left) == whole
    ensures (written + piece) + left == whole
  {
  }

  // ----- The mutable buffer and reader -----

  class Buffer {
    var data: bytes

    constructor ()
      ensures data == []
    {
      data := [];
    }

    method Push(b: byte)
      modifies this
      ensures data == old(data) + [b]
    {
      data := data + [b];
    }

    method Extend(bs: bytes)
      modifies this
      ensures data == old(data) + bs
    {
      data := data + bs;
    }

    /** `wr_u32`: the value is cut to 32 bits. */
    method WriteU32(v: nat)
      modifies this
      ensures data == old(data) + Le(v, WORD)
    {
      data := data + Le(v, WORD);
    }

    method WriteStr(s: bytes)
      modifies this
      ensures data == old(data) + StrBytes(s)
    {
      WriteU32(|s|);
      Extend(s);
      assert data == old(data) + (Le(|s|, WORD) + s);
    }
  }

  class Reader {
    const input: bytes
    var pos: nat

    constructor (bs: bytes)
      ensures input == bs && pos == 0
    {
      input, pos := bs, 0;
    }

    /** The outcome of a read that started at `from` is what the function `p` says. */
    ghost predicate Did<T>(result: Option<T>, p: Parsed<T>)
      reads this
    {
      match p
      case Fail => result == None
      case Ok(v, next) => result == Some(v) && pos == next
    }

    method TakeBytes(n: nat) returns (r: Option<bytes>)
      modifies this
      ensures Did(r, Take(input, old(pos), n)) && (r.None? ==> pos == old(pos))
    {
      if pos + n > |input| {
        return None;
      }
      r := Some(input[pos..pos + n]);
      pos := pos + n;
    }

    method Byte() returns (r: Option<byte>)
      modifies this
      ensures Did(r, ReadByte(input, old(pos)))
    {
      var b := TakeBytes(1);
      if b.None? {
        return None;
      }
      return Some(b.value[0]);
    }

    method Unsigned(n: nat) returns (r: Option<nat>)
      modifies this
      ensures Did(r, ReadLe(input, old(pos), n))
    {
      var b := TakeBytes(n);
      if b.None? {
        return None;
      }
      return Some(FromLe(b.value));
    }

    method Str() returns (r: Option<bytes>)
      modifies this
      ensures Did(r, ReadStr(input, old(pos)))
    {
      var n := Unsigned(WORD);
      if n.None? {
        return None;
      }
      var b := TakeBytes(n.value);
      if b.None? || !ValidUtf8(b.value) {
        return None;
      }
      return Some(b.value);
    }
  }
}
