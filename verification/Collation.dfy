/**
 String collation of crates/cv_browser/src/intl_data.rs: `collation_base`, `numeric_compare`
 and `collator_compare` (CompareStrings, section 10.3 of ECMA-402).  The Unicode tables enter
 as a parameter.
 */
module Collation {

  datatype Ordering = Less | Equal | Greater {
    function Flip(): Ordering { match this case Less => Greater case Equal => Equal case Greater => Less }

    function Then(next: Ordering): Ordering { if this == Equal then next else this }
  }

  // ----- Comparators -----

  /** What the answers on (a, b), (b, c) and (a, c) must have in common. */
  predicate Coherent(ab: Ordering, bc: Ordering, ac: Ordering) {
    (ab == Equal ==> ac == bc) && (bc == Equal ==> ac == ab) && (ab == bc ==> ac == ab)
  }

  /** `cmp` orders the good values totally, up to ties. */
  ghost predicate Lawful<T(!new)>(cmp: (T, T) -> Ordering, good: T -> bool) {
    && (forall a, b :: good(a) && good(b) ==> cmp(a, b) == cmp(b, a).Flip())
    && (forall a, b, c {:trigger cmp(a, b), cmp(b, c)} :: good(a) && good(b) && good(c) ==> Coherent(cmp(a, b), cmp(b, c), cmp(a, c)))
  }

  ghost predicate All<T>(s: seq<T>, good: T -> bool) {
    forall i :: 0 <= i < |s| ==> good(s[i])
  }

  function Lex<T>(cmp: (T, T) -> Ordering, a: seq<T>, b: seq<T>): Ordering {
    if a == [] then (if b == [] then Equal else Less)
    else if b == [] then Greater
    else cmp(a[0], b[0]).Then(Lex(cmp, a[1..], b[1..]))
  }

  lemma {:induction false} LexFlips<T(!new)>(cmp: (T, T) -> Ordering, good: T -> bool, a: seq<T>, b: seq<T>)
    requires Lawful(cmp, good) && All(a, good) && All(b, good)
    ensures Lex(cmp, a, b) == Lex(cmp, b, a).Flip()
  {
    if a != [] && b != [] {
      assert good(a[0]) && good(b[0]);
      LexFlips(cmp, good, a[1..], b[1..]);
    }
  }

  lemma {:induction false} LexCoherent<T(!new)>(cmp: (T, T) -> Ordering, good: T -> bool, a: seq<T>, b: seq<T>, c: seq<T>)
    requires Lawful(cmp, good) && All(a, good) && All(b, good) && All(c, good)
    ensures Coherent(Lex(cmp, a, b), Lex(cmp, b, c), Lex(cmp, a, c))
  {
    if a != [] && b != [] && c != [] {
      assert good(a[0]) && good(b[0]) && good(c[0]);
      LexCoherent(cmp, good, a[1..], b[1..], c[1..]);
    }
  }

  /** Only equal sequences tie if only equal elements do. */
  lemma {:induction false} LexEqual<T(!new)>(cmp: (T, T) -> Ordering, good: T -> bool, a: seq<T>, b: seq<T>)
    requires All(a, good) && All(b, good)
    requires forall x, y :: good(x) && good(y) ==> (cmp(x, y) == Equal <==> x == y)
    ensures Lex(cmp, a, b) == Equal <==> a == b
  {
    if a != [] && b != [] {
      assert good(a[0]) && good(b[0]);
      LexEqual(cmp, good, a[1..], b[1..]);
      assert a == [a[0]] + a[1..] && b == [b[0]] + b[1..];
    }
  }

  function CompareInt(a: int, b: int): Ordering { if a < b then Less else if a == b then Equal else Greater }

  function CompareChar(a: char, b: char): Ordering { if a < b then Less else if a == b then Equal else Greater }

  function CharOrder(): (char, char) -> Ordering { (a, b) => CompareChar(a, b) }

  function AnyChar(): char -> bool { _ => true }

  lemma CharsLawful()
    ensures Lawful(CharOrder(), AnyChar())
  {
  }

  // ----- The primary level -----

  /** The Unicode tables: full lowercase mapping and the Lowercase property. */
  datatype Casing = Casing(lower: char -> seq<char>, isLower: char -> bool)

  predicate IsDigit(c: char) { '0' <= c <= '9' }

  /** ASCII digits are their own lowercase, and nothing else lowercases to one. */
  ghost predicate DigitsApart(k: Casing) {
    forall c {:trigger LowerFirst(k, c)} :: (IsDigit(c) ==> LowerFirst(k, c) == c) && (!IsDigit(c) ==> !IsDigit(LowerFirst(k, c)))
  }

  function LowerFirst(k: Casing, c: char): char { if k.lower(c) == [] then c else k.lower(c)[0] }

  /** The accent-stripped form of a lowercase letter. */
  function Stripped(c: char): (r: char)
    ensures IsDigit(r) <==> IsDigit(c)
    ensures IsDigit(c) ==> r == c
  {
    match c
    case '\U{e0}' | '\U{e1}' | '\U{e2}' | '\U{e3}' | '\U{e4}' | '\U{e5}' | '\U{101}' | '\U{103}' | '\U{105}' => 'a'
    case '\U{e7}' | '\U{107}' | '\U{10d}' => 'c'
    case '\U{e8}' | '\U{e9}' | '\U{ea}' | '\U{eb}' | '\U{113}' | '\U{119}' | '\U{11b}' => 'e'
    case '\U{ec}' | '\U{ed}' | '\U{ee}' | '\U{ef}' | '\U{12b}' => 'i'
    case '\U{f1}' | '\U{144}' => 'n'
    case '\U{f2}' | '\U{f3}' | '\U{f4}' | '\U{f5}' | '\U{f6}' | '\U{f8}' | '\U{14d}' => 'o'
    case '\U{f9}' | '\U{fa}' | '\U{fb}' | '\U{fc}' | '\U{16b}' | '\U{16f}' => 'u'
    case '\U{fd}' | '\U{ff}' => 'y'
    case '\U{df}' => 's'
    case '\U{142}' => 'l'
    case '\U{15b}' | '\U{161}' => 's'
    case '\U{17a}' | '\U{17c}' | '\U{17e}' => 'z'
    case _ => c
  }

  function Base(k: Casing, c: char): char { Stripped(LowerFirst(k, c)) }

  // ----- Numeric collation -----

  datatype Token = Run(digits: string) | Letter(c: char)

  function RunLength(s: string): (n: nat)
    ensures n <= |s| && (forall i :: 0 <= i < n ==> IsDigit(s[i])) && (n < |s| ==> !IsDigit(s[n]))
  {
    if s == [] || !IsDigit(s[0]) then 0 else 1 + RunLength(s[1..])
  }

  /** Maximal digit runs and single other characters. */
  function Tokens(s: string): seq<Token> {
    if s == [] then []
    else if IsDigit(s[0]) then [Run(s[..RunLength(s)])] + Tokens(s[RunLength(s)..])
    else [Letter(s[0])] + Tokens(s[1..])
  }

  function WithoutZeros(s: string): (r: string)
    ensures r == [] || r[0] != '0'
  {
    if s != [] && s[0] == '0' then WithoutZeros(s[1..]) else s
  }

  function CompareRuns(a: string, b: string): Ordering {
    var at, bt := WithoutZeros(a), WithoutZeros(b);
    CompareInt(|at|, |bt|).Then(Lex(CharOrder(), at, bt)).Then(CompareInt(|a|, |b|))
  }

  function Head(t: Token): char { match t case Run(d) => if d == [] then '0' else d[0] case Letter(c) => c }

  function CompareTokens(k: Casing, x: Token, y: Token): Ordering {
    if x.Run? && y.Run? then CompareRuns(x.digits, y.digits)
    else CompareChar(Base(k, Head(x)), Base(k, Head(y))).Then(CompareChar(Head(x), Head(y)))
  }

  function TokenOrder(k: Casing): (Token, Token) -> Ordering { (x, y) => CompareTokens(k, x, y) }

  function NumericOrder(k: Casing, a: string, b: string): Ordering { Lex(TokenOrder(k), Tokens(a), Tokens(b)) }

  // ----- Digit runs compare by value -----

  predicate AllDigits(s: string) { forall i :: 0 <= i < |s| ==> IsDigit(s[i]) }

  function DigitValue(c: char): int { c as int - '0' as int }

  function Pow10(n: nat): nat { if n == 0 then 1 else 10 * Pow10(n - 1) }

  /** The number a digit string denotes. */
  function Value(s: string): int { if s == [] then 0 else DigitValue(s[0]) * Pow10(|s| - 1) + Value(s[1..]) }

  lemma DigitScales(d: int, p: nat)
    requires 0 <= d <= 9
    ensures 0 <= d * p <= 9 * p && (d >= 1 ==> d * p >= p)
  {
  }

  /** The leading digit decides. */
  lemma LeadingDigit(x: int, y: int, p: nat, u: int, v: int)
    requires 0 <= u < p && 0 <= v < p
    ensures CompareInt(x * p + u, y * p + v) == CompareInt(x, y).Then(CompareInt(u, v))
  {
    if x < y { Dominates(x, y, p); }
    if y < x { Dominates(y, x, p); }
  }

  lemma Dominates(x: int, y: int, p: nat)
    requires x < y
    ensures x * p + p <= y * p
  {
    assert (y - x - 1) * p >= 0;
  }

  lemma {:induction false} ValueBounds(s: string)
    requires AllDigits(s)
    ensures 0 <= Value(s) < Pow10(|s|)
    ensures s != [] && s[0] != '0' ==> Value(s) >= Pow10(|s| - 1)
  {
    if s != [] {
      ValueBounds(s[1..]);
      DigitScales(DigitValue(s[0]), Pow10(|s| - 1));
    }
  }

  lemma {:induction false} Pow10Grows(m: nat, n: nat)
    requires m <= n
    ensures Pow10(m) <= Pow10(n)
  {
    if m < n { Pow10Grows(m, n - 1); }
  }

  lemma {:induction false} ZerosAreWorthless(s: string)
    requires AllDigits(s)
    ensures Value(WithoutZeros(s)) == Value(s) && AllDigits(WithoutZeros(s)) && |WithoutZeros(s)| <= |s|
  {
    if s != [] && s[0] == '0' { ZerosAreWorthless(s[1..]); }
  }

  /** For digit strings of one length the lexical order is the numeric one. */
  lemma {:induction false} LexIsNumeric(a: string, b: string)
    requires AllDigits(a) && AllDigits(b) && |a| == |b|
    ensures Lex(CharOrder(), a, b) == CompareInt(Value(a), Value(b))
  {
    if a != [] {
      LexIsNumeric(a[1..], b[1..]);
      ValueBounds(a[1..]);
      ValueBounds(b[1..]);
      LeadingDigit(DigitValue(a[0]), DigitValue(b[0]), Pow10(|a| - 1), Value(a[1..]), Value(b[1..]));
    }
  }

  lemma LongerIsLarger(a: string, b: string)
    requires AllDigits(a) && AllDigits(b) && |a| < |b| && b[0] != '0'
    ensures Value(a) < Value(b)
  {
    ValueBounds(a);
    ValueBounds(b);
    Pow10Grows(|a|, |b| - 1);
  }

  /** Digit runs: numeric value first, then the number of leading zeros. */
  lemma RunsCompareByValue(a: string, b: string)
    requires AllDigits(a) && AllDigits(b)
    ensures CompareRuns(a, b) == CompareInt(Value(a), Value(b)).Then(CompareInt(|a|, |b|))
  {
    var at, bt := WithoutZeros(a), WithoutZeros(b);
    ZerosAreWorthless(a);
    ZerosAreWorthless(b);
    if |at| < |bt| {
      LongerIsLarger(at, bt);
    } else if |bt| < |at| {
      LongerIsLarger(bt, at);
    } else {
      LexIsNumeric(at, bt);
    }
  }

  /** A value and a length determine the digit string. */
  lemma {:induction false} ValueInjective(a: string, b: string)
    requires AllDigits(a) && AllDigits(b) && |a| == |b| && Value(a) == Value(b)
    ensures a == b
  {
    LexIsNumeric(a, b);
    LexEqual(CharOrder(), AnyChar(), a, b);
  }

  // ----- The order on tokens -----

  predicate GoodToken(t: Token) {
    match t case Run(d) => d != [] && AllDigits(d) case Letter(c) => !IsDigit(c)
  }

  function Good(): Token -> bool { t => GoodToken(t) }

  /** Digit runs as a block: other tokens are either below all of them or above all of them. */
  lemma TokensCoherent(k: Casing, x: Token, y: Token, z: Token)
    requires DigitsApart(k) && GoodToken(x) && GoodToken(y) && GoodToken(z)
    ensures Coherent(CompareTokens(k, x, y), CompareTokens(k, y, z), CompareTokens(k, x, z))
  {
    TokenKey(k, x, y);
    TokenKey(k, y, z);
    TokenKey(k, x, z);
  }

  /** Two tokens compare by the base of their heads (one for all runs), then by value or
      character, then by length. */
  lemma TokenKey(k: Casing, x: Token, y: Token)
    requires DigitsApart(k) && GoodToken(x) && GoodToken(y)
    ensures CompareTokens(k, x, y) ==
            CompareInt(Key(k, x, 0), Key(k, y, 0)).Then(CompareInt(Key(k, x, 1), Key(k, y, 1))).Then(CompareInt(Key(k, x, 2), Key(k, y, 2)))
  {
    if x.Run? && y.Run? {
      RunsCompareByValue(x.digits, y.digits);
    } else {
      assert IsDigit(Base(k, Head(x))) <==> x.Run?;
      assert IsDigit(Base(k, Head(y))) <==> y.Run?;
    }
  }

  function Key(k: Casing, t: Token, i: nat): int {
    match t
    case Run(d) => if i == 0 then '0' as int else if i == 1 then Value(d) else |d|
    case Letter(c) => if i == 0 then Base(k, c) as int else if i == 1 then c as int else 0
  }

  lemma TokensLawful(k: Casing)
    requires DigitsApart(k)
    ensures Lawful(TokenOrder(k), Good())
    ensures forall x, y :: Good()(x) && Good()(y) ==> (TokenOrder(k)(x, y) == Equal <==> x == y)
  {
    forall x, y | GoodToken(x) && GoodToken(y)
      ensures CompareTokens(k, x, y) == CompareTokens(k, y, x).Flip() && (CompareTokens(k, x, y) == Equal <==> x == y)
    {
      TokenKey(k, x, y);
      TokenKey(k, y, x);
      if x.Run? && y.Run? && CompareTokens(k, x, y) == Equal { ValueInjective(x.digits, y.digits); }
    }
    forall x, y, z | GoodToken(x) && GoodToken(y) && GoodToken(z)
      ensures Coherent(CompareTokens(k, x, y), CompareTokens(k, y, z), CompareTokens(k, x, z))
    {
      TokensCoherent(k, x, y, z);
    }
  }

  // ----- Numeric collation is a total order -----

  lemma {:induction false} TokensGood(s: string)
    ensures All(Tokens(s), Good()) && (Tokens(s) == [] <==> s == [])
    decreases |s|
  {
    if s != [] {
      var rest := if IsDigit(s[0]) then s[RunLength(s)..] else s[1..];
      var first := if IsDigit(s[0]) then Run(s[..RunLength(s)]) else Letter(s[0]);
      TokensGood(rest);
      assert Tokens(s) == [first] + Tokens(rest);
      assert Good()(first);
    }
  }

  function TextOf(t: Token): string { match t case Run(d) => d case Letter(c) => [c] }

  function Text(ts: seq<Token>): string {
    if ts == [] then "" else TextOf(ts[0]) + Text(ts[1..])
  }

  lemma TextCons(t: Token, ts: seq<Token>)
    ensures Text([t] + ts) == TextOf(t) + Text(ts)
  {
    assert ([t] + ts)[1..] == ts;
  }

  lemma {:induction false} TextOfTokens(s: string)
    ensures Text(Tokens(s)) == s
    decreases |s|
  {
    if s != [] {
      var n := if IsDigit(s[0]) then RunLength(s) else 1;
      var first := if IsDigit(s[0]) then Run(s[..n]) else Letter(s[0]);
      TextOfTokens(s[n..]);
      assert Tokens(s) == [first] + Tokens(s[n..]);
      TextCons(first, Tokens(s[n..]));
      assert s == TextOf(first) + s[n..];
    }
  }

  lemma NumericIsTotalOrder(k: Casing, a: string, b: string, c: string)
    requires DigitsApart(k)
    ensures NumericOrder(k, a, b) == NumericOrder(k, b, a).Flip()
    ensures Coherent(NumericOrder(k, a, b), NumericOrder(k, b, c), NumericOrder(k, a, c))
    ensures NumericOrder(k, a, b) == Equal <==> a == b
  {
    TokensLawful(k);
    TokensGood(a);
    TokensGood(b);
    TokensGood(c);
    LexFlips(TokenOrder(k), Good(), Tokens(a), Tokens(b));
    LexCoherent(TokenOrder(k), Good(), Tokens(a), Tokens(b), Tokens(c));
    LexEqual(TokenOrder(k), Good(), Tokens(a), Tokens(b));
    TextOfTokens(a);
    TextOfTokens(b);
  }

  lemma RunLengthIs(x: string, s: string)
    requires AllDigits(x) && (s == [] || !IsDigit(s[0]))
    ensures RunLength(x + s) == |x|
  {
    var t := x + s;
    assert forall i :: 0 <= i < |x| ==> t[i] == x[i];
    assert s != [] ==> t[|x|] == s[0];
  }

  lemma TokensOfRun(x: string, s: string)
    requires x != [] && AllDigits(x) && (s == [] || !IsDigit(s[0]))
    ensures Tokens(x + s) == [Run(x)] + Tokens(s)
  {
    RunLengthIs(x, s);
    assert (x + s)[..|x|] == x && (x + s)[|x|..] == s && (x + s)[0] == x[0];
  }

  /** A split in front of or behind a non-digit is a split between tokens. */
  lemma {:induction false} TokensSplit(p: string, s: string)
    requires p == [] || s == [] || !IsDigit(p[|p| - 1]) || !IsDigit(s[0])
    ensures Tokens(p + s) == Tokens(p) + Tokens(s)
    decreases |p|, 1
  {
    if p == [] || s == [] {
      assert p + s == if p == [] then s else p;
    } else {
      var n := if IsDigit(p[0]) then RunLength(p) else 1;
      var x, q := p[..n], p[n..];
      assert p == x + q;
      assert q != [] ==> q[|q| - 1] == p[|p| - 1];
      if IsDigit(p[0]) { SplitAfterRun(x, q, s); } else { assert x == [p[0]]; SplitAfterLetter(p[0], q, s); }
    }
  }

  lemma {:induction false} SplitAfterLetter(c: char, q: string, s: string)
    requires !IsDigit(c) && s != []
    requires q == [] || !IsDigit(q[|q| - 1]) || !IsDigit(s[0])
    ensures Tokens(([c] + q) + s) == Tokens([c] + q) + Tokens(s)
    decreases |q| + 1, 0
  {
    TokensSplit(q, s);
    Reassociate([Letter(c)], Tokens(q), Tokens(s));
    Reassociate([c], q, s);
  }

  lemma {:induction false} SplitAfterRun(x: string, q: string, s: string)
    requires x != [] && AllDigits(x) && (q == [] || !IsDigit(q[0])) && s != []
    requires (if q == [] then false else !IsDigit(q[|q| - 1])) || !IsDigit(s[0])
    ensures Tokens((x + q) + s) == Tokens(x + q) + Tokens(s)
    decreases |x + q|, 0
  {
    TokensSplit(q, s);
    assert (q + s)[0] == if q == [] then s[0] else q[0];
    TokensOfRun(x, q);
    TokensOfRun(x, q + s);
    Reassociate([Run(x)], Tokens(q), Tokens(s));
    Reassociate(x, q, s);
  }

  lemma Reassociate<T>(a: seq<T>, b: seq<T>, c: seq<T>)
    ensures (a + b) + c == a + (b + c)
  {
  }

  lemma {:induction false} LexCommonPrefix<T>(cmp: (T, T) -> Ordering, p: seq<T>, a: seq<T>, b: seq<T>)
    requires forall i :: 0 <= i < |p| ==> cmp(p[i], p[i]) == Equal
    ensures Lex(cmp, p + a, p + b) == Lex(cmp, a, b)
  {
    if p == [] {
      assert p + a == a && p + b == b;
    } else {
      assert (p + a)[1..] == p[1..] + a && (p + b)[1..] == p[1..] + b;
      LexCommonPrefix(cmp, p[1..], a, b);
    }
  }

  lemma LexCons<T>(cmp: (T, T) -> Ordering, x: T, a: seq<T>, y: T, b: seq<T>)
    ensures Lex(cmp, [x] + a, [y] + b) == cmp(x, y).Then(Lex(cmp, a, b))
  {
    assert ([x] + a)[1..] == a && ([y] + b)[1..] == b;
  }

  /** Where two strings first differ in a digit run, the run with the smaller value comes first;
      runs of one value by length; otherwise what follows decides. */
  lemma DigitRunsByValue(k: Casing, p: string, x: string, y: string, s: string, t: string)
    requires DigitsApart(k) && x != [] && y != [] && AllDigits(x) && AllDigits(y)
    requires (p == [] || !IsDigit(p[|p| - 1])) && (s == [] || !IsDigit(s[0])) && (t == [] || !IsDigit(t[0]))
    ensures NumericOrder(k, p + (x + s), p + (y + t)) ==
            CompareInt(Value(x), Value(y)).Then(CompareInt(|x|, |y|)).Then(NumericOrder(k, s, t))
  {
    TokensAround(p, x, s);
    TokensAround(p, y, t);
    RunsDecide(k, p, x, y, Tokens(s), Tokens(t));
  }

  lemma RunsDecide(k: Casing, p: string, x: string, y: string, ss: seq<Token>, ts: seq<Token>)
    requires DigitsApart(k) && AllDigits(x) && AllDigits(y)
    ensures Lex(TokenOrder(k), Tokens(p) + ([Run(x)] + ss), Tokens(p) + ([Run(y)] + ts)) ==
            CompareInt(Value(x), Value(y)).Then(CompareInt(|x|, |y|)).Then(Lex(TokenOrder(k), ss, ts))
  {
    PrefixTies(k, p, [Run(x)] + ss, [Run(y)] + ts);
    LexCons(TokenOrder(k), Run(x), ss, Run(y), ts);
    RunsCompareByValue(x, y);
  }

  lemma TokensAround(p: string, x: string, s: string)
    requires (p == [] || !IsDigit(p[|p| - 1])) && x != [] && AllDigits(x) && (s == [] || !IsDigit(s[0]))
    ensures Tokens(p + (x + s)) == Tokens(p) + ([Run(x)] + Tokens(s))
  {
    TokensSplit(p, x + s);
    TokensOfRun(x, s);
  }

  lemma PrefixTies(k: Casing, p: string, a: seq<Token>, b: seq<Token>)
    requires DigitsApart(k)
    ensures Lex(TokenOrder(k), Tokens(p) + a, Tokens(p) + b) == Lex(TokenOrder(k), a, b)
  {
    TokensLawful(k);
    TokensGood(p);
    assert forall i :: 0 <= i < |Tokens(p)| ==> Good()(Tokens(p)[i]);
    LexCommonPrefix(TokenOrder(k), Tokens(p), a, b);
  }

  // ----- Three-level collation -----

  function Bases(k: Casing, s: string): string { seq(|s|, i requires 0 <= i < |s| => Base(k, s[i])) }

  function Lowered(k: Casing, s: string): string { if s == [] then "" else k.lower(s[0]) + Lowered(k, s[1..]) }

  /** Lowercase before the rest, then by code point. */
  function CompareCase(k: Casing, a: char, b: char): Ordering {
    if a == b then Equal
    else if k.isLower(a) != k.isLower(b) then (if k.isLower(a) then Less else Greater)
    else CompareChar(a, b)
  }

  function CaseOrder(k: Casing): (char, char) -> Ordering { (a, b) => CompareCase(k, a, b) }

  /** The first difference among the positions both strings have. */
  function FirstDifference(k: Casing, a: string, b: string): Ordering {
    if a == [] || b == [] then Equal else CompareCase(k, a[0], b[0]).Then(FirstDifference(k, a[1..], b[1..]))
  }

  function CollatorOrder(k: Casing, a: string, b: string): Ordering {
    Lex(CharOrder(), Bases(k, a), Bases(k, b))
      .Then(Lex(CharOrder(), Lowered(k, a), Lowered(k, b)))
      .Then(FirstDifference(k, a, b))
  }

  lemma CasesCoherent(k: Casing, a: char, b: char, c: char)
    ensures Coherent(CompareCase(k, a, b), CompareCase(k, b, c), CompareCase(k, a, c))
  {
  }

  lemma CasesLawful(k: Casing)
    ensures Lawful(CaseOrder(k), AnyChar())
    ensures forall a, b :: CaseOrder(k)(a, b) == Equal <==> a == b
  {
    forall a, b, c ensures Coherent(CompareCase(k, a, b), CompareCase(k, b, c), CompareCase(k, a, c)) {
      CasesCoherent(k, a, b, c);
    }
  }

  lemma {:induction false} FirstDifferenceIsLex(k: Casing, a: string, b: string)
    requires |a| == |b|
    ensures FirstDifference(k, a, b) == Lex(CaseOrder(k), a, b)
  {
    if a != [] { FirstDifferenceIsLex(k, a[1..], b[1..]); }
  }

  /** The three levels, each over whole strings. */
  lemma LevelsAre(k: Casing, a: string, b: string)
    ensures CollatorOrder(k, a, b) ==
            Lex(CharOrder(), Bases(k, a), Bases(k, b))
              .Then(Lex(CharOrder(), Lowered(k, a), Lowered(k, b)).Then(Lex(CaseOrder(k), a, b)))
  {
    LexEqual(CharOrder(), AnyChar(), Bases(k, a), Bases(k, b));
    if Bases(k, a) == Bases(k, b) {
      assert |Bases(k, a)| == |a| && |Bases(k, b)| == |b|;
      FirstDifferenceIsLex(k, a, b);
    }
  }

  lemma LevelLaws(cmp: (char, char) -> Ordering, a: string, b: string, c: string)
    requires Lawful(cmp, AnyChar())
    ensures Lex(cmp, a, b) == Lex(cmp, b, a).Flip() && Coherent(Lex(cmp, a, b), Lex(cmp, b, c), Lex(cmp, a, c))
  {
    LexFlips(cmp, AnyChar(), a, b);
    LexCoherent(cmp, AnyChar(), a, b, c);
  }

  lemma CollatorIsTotalOrder(k: Casing, a: string, b: string, c: string)
    ensures CollatorOrder(k, a, b) == CollatorOrder(k, b, a).Flip()
    ensures Coherent(CollatorOrder(k, a, b), CollatorOrder(k, b, c), CollatorOrder(k, a, c))
    ensures CollatorOrder(k, a, b) == Equal <==> a == b
  {
    LevelsAre(k, a, b);
    LevelsAre(k, b, a);
    LevelsAre(k, b, c);
    LevelsAre(k, a, c);
    CharsLawful();
    CasesLawful(k);
    LevelLaws(CharOrder(), Bases(k, a), Bases(k, b), Bases(k, c));
    LevelLaws(CharOrder(), Lowered(k, a), Lowered(k, b), Lowered(k, c));
    LevelLaws(CaseOrder(k), a, b, c);
    Ties(k, a, b);
  }

  lemma Ties(k: Casing, a: string, b: string)
    ensures Lex(CaseOrder(k), a, b) == Equal <==> a == b
    ensures a == b ==> Lex(CharOrder(), Bases(k, a), Bases(k, b)) == Equal
    ensures a == b ==> Lex(CharOrder(), Lowered(k, a), Lowered(k, b)) == Equal
  {
    CasesLawful(k);
    LexEqual(CaseOrder(k), AnyChar(), a, b);
    LexEqual(CharOrder(), AnyChar(), Bases(k, a), Bases(k, b));
    LexEqual(CharOrder(), AnyChar(), Lowered(k, a), Lowered(k, b));
  }

  // ----- What a reader of a sorted list sees -----

  /** The accented forms of a plain letter, in the repertoire of the comparator. */
  function Accents(x: char): string {
    if x == 'a' then "\U{e0}\U{e1}\U{e2}\U{e3}\U{e4}\U{e5}\U{101}\U{103}\U{105}"
    else if x == 'c' then "\U{e7}\U{107}\U{10d}"
    else if x == 'e' then "\U{e8}\U{e9}\U{ea}\U{eb}\U{113}\U{119}\U{11b}"
    else if x == 'i' then "\U{ec}\U{ed}\U{ee}\U{ef}\U{12b}"
    else if x == 'l' then "\U{142}"
    else if x == 'n' then "\U{f1}\U{144}"
    else if x == 'o' then "\U{f2}\U{f3}\U{f4}\U{f5}\U{f6}\U{f8}\U{14d}"
    else if x == 's' then "\U{df}\U{15b}\U{161}"
    else if x == 'u' then "\U{f9}\U{fa}\U{fb}\U{fc}\U{16b}\U{16f}"
    else if x == 'y' then "\U{fd}\U{ff}"
    else if x == 'z' then "\U{17a}\U{17c}\U{17e}"
    else ""
  }

  ghost predicate Accented(v: char) { exists x :: v in Accents(x) }

  /** The lowercase of a character; of several, the first. */
  function LowercaseOf(k: Casing, c: char): char { if |k.lower(c)| == 0 then c else k.lower(c)[0] }

  /** `c`, in whatever case, is `x` with or without an accent. */
  ghost predicate Reads(k: Casing, c: char, x: char) {
    var v := LowercaseOf(k, c);
    v in Accents(x) || (v == x && !Accented(v))
  }

  /** `a` without accents and capitals is `xs`. */
  ghost predicate Spells(k: Casing, a: string, xs: string) {
    |a| == |xs| && forall i :: 0 <= i < |a| ==> Reads(k, a[i], xs[i])
  }

  lemma StripsAccent(v: char, x: char)
    requires v in Accents(x)
    ensures Stripped(v) == x && x <= 'z' < v
  {
    AccentsAreHigh(v, x);
    if x <= 'i' { StripsEarly(v, x); } else { StripsLate(v, x); }
  }

  lemma StripsEarly(v: char, x: char)
    requires v in Accents(x) && x <= 'i'
    ensures Stripped(v) == x
  {
  }

  lemma StripsLate(v: char, x: char)
    requires v in Accents(x) && x > 'i'
    ensures Stripped(v) == x
  {
  }

  lemma AccentsAreHigh(v: char, x: char)
    requires v in Accents(x)
    ensures x <= 'z' < v
  {
  }

  lemma KeepsPlain(v: char)
    requires !Accented(v)
    ensures Stripped(v) == v
  {
    assert v !in Accents('a') && v !in Accents('c') && v !in Accents('e') && v !in Accents('i') && v !in Accents('l');
    assert v !in Accents('n') && v !in Accents('o') && v !in Accents('s') && v !in Accents('u');
    assert v !in Accents('y') && v !in Accents('z');
  }

  lemma BasesSpell(k: Casing, a: string, xs: string)
    requires Spells(k, a, xs)
    ensures Bases(k, a) == xs
  {
    forall i | 0 <= i < |a| ensures Bases(k, a)[i] == xs[i] {
      assert Reads(k, a[i], xs[i]);
      var v := LowercaseOf(k, a[i]);
      if v in Accents(xs[i]) { StripsAccent(v, xs[i]); } else { KeepsPlain(v); }
    }
  }

  /** Every string has a reading, and only one. */
  lemma OneReading(k: Casing, a: string) returns (xs: string)
    ensures Spells(k, a, xs) && forall ys :: Spells(k, a, ys) ==> ys == xs
  {
    xs := Bases(k, a);
    forall i | 0 <= i < |a| ensures Reads(k, a[i], xs[i]) {
      var v := LowercaseOf(k, a[i]);
      if Accented(v) {
        var x :| v in Accents(x);
        StripsAccent(v, x);
      } else {
        KeepsPlain(v);
      }
    }
    forall ys | Spells(k, a, ys) ensures ys == xs { BasesSpell(k, a, ys); }
  }

  /** `a` and `b` agree before position `i` and differ there, or one of them ends there. */
  ghost predicate DifferAt(a: string, b: string, i: nat) {
    i <= |a| && i <= |b| && a[..i] == b[..i] && (if i < |a| && i < |b| then a[i] != b[i] else |a| != |b|)
  }

  /** `a` comes before `b` in a dictionary. */
  ghost predicate Precedes(a: string, b: string, i: nat) {
    i < |b| && (i == |a| || (i < |a| && a[i] < b[i]))
  }

  lemma {:induction false} LexAt(a: string, b: string, i: nat)
    requires DifferAt(a, b, i)
    ensures Lex(CharOrder(), a, b) == if Precedes(a, b, i) then Less else Greater
  {
    if i > 0 {
      assert a[..i][0] == b[..i][0] && a[..i][1..] == a[1..][..i - 1] && b[..i][1..] == b[1..][..i - 1];
      LexAt(a[1..], b[1..], i - 1);
    }
  }

  /** Strings are sorted by their plain letters; accents and case do not matter as long as those
      differ. */
  lemma SortedByLetters(k: Casing, a: string, xs: string, b: string, ys: string, i: nat)
    requires Spells(k, a, xs) && Spells(k, b, ys) && DifferAt(xs, ys, i)
    ensures CollatorOrder(k, a, b) == if Precedes(xs, ys, i) then Less else Greater
  {
    BasesSpell(k, a, xs);
    BasesSpell(k, b, ys);
    LexAt(xs, ys, i);
  }

  /** Strings of the same plain letters are sorted by their lowercase forms, accents included; case
      does not matter as long as those differ. */
  lemma ThenByAccents(k: Casing, a: string, b: string, xs: string, i: nat)
    requires Spells(k, a, xs) && Spells(k, b, xs) && DifferAt(Lowered(k, a), Lowered(k, b), i)
    ensures CollatorOrder(k, a, b) == if Precedes(Lowered(k, a), Lowered(k, b), i) then Less else Greater
  {
    BasesSpell(k, a, xs);
    BasesSpell(k, b, xs);
    LexEqual(CharOrder(), AnyChar(), xs, xs);
    LexAt(Lowered(k, a), Lowered(k, b), i);
  }

  /** Strings of the same letters and accents are sorted by their first difference in case, lowercase
      first. */
  lemma ThenByCase(k: Casing, a: string, b: string, xs: string, i: nat)
    requires Spells(k, a, xs) && Spells(k, b, xs) && Lowered(k, a) == Lowered(k, b) && DifferAt(a, b, i)
    ensures CollatorOrder(k, a, b) ==
            if k.isLower(a[i]) == k.isLower(b[i]) then (if a[i] < b[i] then Less else Greater)
            else if k.isLower(a[i]) then Less else Greater
  {
    BasesSpell(k, a, xs);
    BasesSpell(k, b, xs);
    LexEqual(CharOrder(), AnyChar(), xs, xs);
    LexEqual(CharOrder(), AnyChar(), Lowered(k, a), Lowered(k, b));
    FirstDifferenceAt(k, a, b, i);
  }

  lemma {:induction false} FirstDifferenceAt(k: Casing, a: string, b: string, i: nat)
    requires DifferAt(a, b, i) && i < |a| && i < |b|
    ensures FirstDifference(k, a, b) == CompareCase(k, a[i], b[i])
  {
    if i > 0 {
      assert a[..i][0] == b[..i][0] && a[..i][1..] == a[1..][..i - 1] && b[..i][1..] == b[1..][..i - 1];
      FirstDifferenceAt(k, a[1..], b[1..], i - 1);
    }
  }

  /** One letter decides: an accented letter stands with its plain letter, after it, and in front of
      the next one, in whatever case either is written. */
  lemma AccentedLetterPlace(k: Casing, c: char, v: char, x: char, d: char, y: char)
    requires k.lower(c) == [v] && v in Accents(x) && k.lower(d) == [y] && 'a' <= y <= 'z'
    ensures CollatorOrder(k, [c], [d]) == if x < y then Less else Greater
  {
    StripsAccent(v, x);
    AsciiIsPlain(y);
    assert Spells(k, [c], [x]) && Spells(k, [d], [y]);
    if x != y {
      SortedByLetters(k, [c], [x], [d], [y], 0);
    } else {
      assert Lowered(k, [c]) == [v] && Lowered(k, [d]) == [y];
      ThenByAccents(k, [c], [d], [x], 0);
    }
  }

  lemma AsciiIsPlain(y: char)
    requires y <= 'z'
    ensures !Accented(y)
  {
    forall x | y in Accents(x) ensures false { StripsAccent(y, x); }
  }

  lemma ReadsAs(k: Casing, c: char, x: char)
    requires Reads(k, c, x)
    ensures Base(k, c) == x
  {
    assert [c][0] == c && [x][0] == x;
    BasesSpell(k, [c], [x]);
    assert Bases(k, [c])[0] == Base(k, c);
  }

  /** Numeric collation outside digit runs: plain letters decide, then the characters themselves. */
  lemma NumericSortsByLetters(k: Casing, p: string, c: char, x: char, s: string, d: char, y: char, t: string)
    requires DigitsApart(k) && Reads(k, c, x) && Reads(k, d, y) && c != d
    requires !IsDigit(c) && (!IsDigit(d) || p == [] || !IsDigit(p[|p| - 1]))
    ensures NumericOrder(k, p + ([c] + s), p + ([d] + t)) == if x < y || (x == y && c < d) then Less else Greater
  {
    ReadsAs(k, c, x);
    ReadsAs(k, d, y);
    TokensSplit(p, [c] + s);
    TokensSplit(p, [d] + t);
    PrefixTies(k, p, Tokens([c] + s), Tokens([d] + t));
    LetterStep(k, [c] + s, [d] + t);
  }

  /** A string comes before its continuations. */
  lemma NumericPrefixFirst(k: Casing, p: string, c: char, s: string)
    requires DigitsApart(k) && (!IsDigit(c) || p == [] || !IsDigit(p[|p| - 1]))
    ensures NumericOrder(k, p, p + ([c] + s)) == Less
  {
    TokensSplit(p, [c] + s);
    assert Tokens(p) == Tokens(p) + [];
    PrefixTies(k, p, [], Tokens([c] + s));
    TokenHead([c] + s);
  }

  // ----- The comparators as they run -----

  /** Moves past the digit run that starts at `start`. */
  method SkipDigits(s: string, start: nat) returns (i: nat)
    requires start <= |s|
    ensures i == start + RunLength(s[start..])
  {
    i := start;
    while i < |s| && IsDigit(s[i])
      invariant start <= i <= |s| && AllDigits(s[start..i])
    {
      assert s[start..i + 1] == s[start..i] + [s[i]];
      i := i + 1;
    }
    assert s[start..] == s[start..i] + s[i..];
    RunLengthIs(s[start..i], s[i..]);
  }

  method NumericCompare(k: Casing, a: string, b: string) returns (r: Ordering)
    ensures r == NumericOrder(k, a, b)
  {
    var i, j := 0, 0;
    while i < |a| && j < |b|
      invariant i <= |a| && j <= |b|
      invariant NumericOrder(k, a[i..], b[j..]) == NumericOrder(k, a, b)
      decreases |a| - i
    {
      assert a[i..][0] == a[i] && b[j..][0] == b[j];
      if IsDigit(a[i]) && IsDigit(b[j]) {
        var aStart, bStart := i, j;
        i := SkipDigits(a, i);
        j := SkipDigits(b, j);
        var an, bn := a[aStart..i], b[bStart..j];
        var at, bt := WithoutZeros(an), WithoutZeros(bn);
        NumericStep(k, a, b, aStart, bStart, i, j);
        var ord := CompareInt(|at|, |bt|).Then(Lex(CharOrder(), at, bt));
        if ord != Equal { return ord; }
        var zord := CompareInt(|an|, |bn|);
        if zord != Equal { return zord; }
      } else {
        assert a[i..][1..] == a[i + 1..] && b[j..][1..] == b[j + 1..];
        var ord := CompareChar(Base(k, a[i]), Base(k, b[j]));
        LetterStep(k, a[i..], b[j..]);
        if ord != Equal { return ord; }
        if a[i] != b[j] { return CompareChar(a[i], b[j]); }
        i, j := i + 1, j + 1;
      }
    }
    TokensGood(a[i..]);
    TokensGood(b[j..]);
    r := CompareInt(|a| - i, |b| - j);
  }

  lemma NumericStep(k: Casing, a: string, b: string, i: nat, j: nat, i': nat, j': nat)
    requires i < |a| && j < |b| && IsDigit(a[i]) && IsDigit(b[j])
    requires i' == i + RunLength(a[i..]) && j' == j + RunLength(b[j..])
    ensures NumericOrder(k, a[i..], b[j..]) == CompareRuns(a[i..i'], b[j..j']).Then(NumericOrder(k, a[i'..], b[j'..]))
  {
    var x, y := a[i..], b[j..];
    assert x[0] == a[i] && y[0] == b[j];
    assert x[..RunLength(x)] == a[i..i'] && x[RunLength(x)..] == a[i'..];
    assert y[..RunLength(y)] == b[j..j'] && y[RunLength(y)..] == b[j'..];
  }

  lemma LetterStep(k: Casing, a: string, b: string)
    requires a != [] && b != [] && !(IsDigit(a[0]) && IsDigit(b[0]))
    ensures var ord := CompareChar(Base(k, a[0]), Base(k, b[0])).Then(CompareChar(a[0], b[0]));
            NumericOrder(k, a, b) == if ord == Equal then NumericOrder(k, a[1..], b[1..]) else ord
  {
    TokenHead(a);
    TokenHead(b);
  }

  lemma TokenHead(a: string)
    requires a != []
    ensures Tokens(a) != [] && Head(Tokens(a)[0]) == a[0] && (Tokens(a)[0].Run? <==> IsDigit(a[0]))
    ensures !IsDigit(a[0]) ==> Tokens(a)[1..] == Tokens(a[1..])
  {
  }

  method CollatorCompare(k: Casing, a: string, b: string, numeric: bool) returns (r: Ordering)
    ensures r == if numeric then NumericOrder(k, a, b) else CollatorOrder(k, a, b)
  {
    if numeric {
      r := NumericCompare(k, a, b);
      return;
    }
    r := CompareBases(k, a, b);
    if r != Equal { return; }
    r := Lex(CharOrder(), Lowered(k, a), Lowered(k, b));
    if r != Equal { return; }
    r := CompareCases(k, a, b);
  }

  method CompareBases(k: Casing, a: string, b: string) returns (r: Ordering)
    ensures r == Lex(CharOrder(), Bases(k, a), Bases(k, b))
  {
    var i := 0;
    assert Bases(k, a[0..]) == Bases(k, a) && Bases(k, b[0..]) == Bases(k, b);
    while true
      invariant i <= |a| && i <= |b|
      invariant Lex(CharOrder(), Bases(k, a[i..]), Bases(k, b[i..])) == Lex(CharOrder(), Bases(k, a), Bases(k, b))
      decreases |a| - i
    {
      if i < |a| && i < |b| {
        var ord := CompareChar(Base(k, a[i]), Base(k, b[i]));
        assert Bases(k, a[i..])[1..] == Bases(k, a[i + 1..]) && Bases(k, b[i..])[1..] == Bases(k, b[i + 1..]);
        if ord != Equal { return ord; }
        i := i + 1;
      } else if i < |a| {
        return Greater;
      } else if i < |b| {
        return Less;
      } else {
        return Equal;
      }
    }
  }

  method CompareCases(k: Casing, a: string, b: string) returns (r: Ordering)
    ensures r == FirstDifference(k, a, b)
  {
    var n := if |a| < |b| then |a| else |b|;
    for i := 0 to n
      invariant FirstDifference(k, a[i..], b[i..]) == FirstDifference(k, a, b)
    {
      assert a[i..][1..] == a[i + 1..] && b[i..][1..] == b[i + 1..];
      if a[i] != b[i] {
        var aLower, bLower := k.isLower(a[i]), k.isLower(b[i]);
        if aLower != bLower { return if aLower then Less else Greater; }
        return CompareChar(a[i], b[i]);
      }
    }
    return Equal;
  }
}
