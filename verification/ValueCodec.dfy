/**
 The tagged-binary encoding of JavaScript values, crates/cv_browser/src/idb_persist.rs
 lines 226-380.
 */
module ValueCodec {
  import opened Common
  import opened Wire

  const MAX_DEPTH: nat := 128
  const MAX_LENGTH: nat := 0x1_0000_0000

  const TAG_UNDEFINED: byte := 0
  const TAG_NULL: byte := 1
  const TAG_BOOL: byte := 2
  const TAG_NUMBER: byte := 3
  const TAG_STRING: byte := 4
  const TAG_ARRAY: byte := 5
  const TAG_OBJECT: byte := 6

  /** Strings and keys are UTF-8 bytes, a number is its 64-bit pattern, and an object lists its
      properties in insertion order.  `Function` stands for every kind of function. */
  datatype Value =
    | Undefined
    | Hole
    | Null
    | Bool(b: bool)
    | Number(bits: nat)
    | String(s: bytes)
    | Array(items: seq<Value>)
    | Object(props: seq<Prop>)
    | Function
    | BigInt

  datatype Prop = Prop(key: bytes, value: Value)

  predicate IsInternalKey(k: bytes) { k != [] && k[0] == 1 }

  /** Properties that are written: data values under a key that is not engine-internal. */
  predicate Kept(p: Prop) { !IsInternalKey(p.key) && !p.value.Function? && !p.value.Undefined? }

  function KeptCount(ps: seq<Prop>): (n: nat)
    ensures n <= |ps|
  {
    if ps == [] then 0 else (if Kept(ps[0]) then 1 else 0) + KeptCount(ps[1..])
  }

  // ----- Encoding -----

  function Encode(v: Value, depth: nat): (r: bytes)
    ensures |r| >= 1
    decreases v, 1
  {
    if depth >= MAX_DEPTH then [TAG_NULL]
    else match v
      case Undefined => [TAG_UNDEFINED]
      case Hole => [TAG_UNDEFINED]
      case Null => [TAG_NULL]
      case Bool(b) => [TAG_BOOL] + [if b then 1 else 0]
      case Number(bits) => [TAG_NUMBER] + Le(bits, DOUBLE)
      case String(s) => [TAG_STRING] + StrBytes(s)
      case Array(items) => [TAG_ARRAY] + (Le(|items|, WORD) + EncodeItems(items, depth + 1))
      case Object(props) => [TAG_OBJECT] + (Le(KeptCount(props), WORD) + EncodeProps(props, depth + 1))
      case Function => [TAG_NULL]
      case BigInt => [TAG_NULL]
  }

  function EncodeItems(vs: seq<Value>, depth: nat): (r: bytes)
    ensures |r| >= |vs|
    decreases vs, 0
  {
    if vs == [] then [] else Encode(vs[0], depth) + EncodeItems(vs[1..], depth)
  }

  function EncodeProp(p: Prop, depth: nat): (r: bytes)
    ensures |r| >= 1
    decreases p.value, 2
  {
    StrBytes(p.key) + Encode(p.value, depth)
  }

  function EncodeProps(ps: seq<Prop>, depth: nat): (r: bytes)
    ensures |r| >= KeptCount(ps)
    decreases ps, 0
  {
    if ps == [] then []
    else (if Kept(ps[0]) then EncodeProp(ps[0], depth) else []) + EncodeProps(ps[1..], depth)
  }

  // ----- Decoding -----

  /** `OrderedMap::insert`: an existing key keeps its place and gets the new value. */
  function Insert(ps: seq<Prop>, k: bytes, v: Value): seq<Prop> {
    if ps == [] then [Prop(k, v)]
    else if ps[0].key == k then [Prop(k, v)] + ps[1..]
    else [ps[0]] + Insert(ps[1..], k, v)
  }

  /** The map built by inserting the entries one after the other. */
  function FromEntries(ps: seq<Prop>): seq<Prop> {
    if ps == [] then []
    else
      var last := ps[|ps| - 1];
      Insert(FromEntries(ps[..|ps| - 1]), last.key, last.value)
  }

  function Decode(bs: bytes, pos: nat, depth: nat): (r: Parsed<Value>)
    ensures r.Ok? ==> pos < r.pos <= |bs|
    decreases MAX_DEPTH - depth, 0
  {
    if depth >= MAX_DEPTH then Fail
    else match ReadByte(bs, pos)
      case Fail => Fail
      case Ok(tag, p) => DecodeBody(bs, p, depth, tag)
  }

  function DecodeBody(bs: bytes, p: nat, depth: nat, tag: byte): (r: Parsed<Value>)
    requires depth < MAX_DEPTH && p <= |bs|
    ensures r.Ok? ==> p <= r.pos <= |bs|
    decreases MAX_DEPTH - depth - 1, |bs| + 2
  {
    if tag == TAG_UNDEFINED then Ok(Undefined, p)
    else if tag == TAG_NULL then Ok(Null, p)
    else if tag == TAG_BOOL then
      match ReadByte(bs, p) { case Fail => Fail case Ok(b, q) => Ok(Bool(b != 0), q) }
    else if tag == TAG_NUMBER then
      match ReadLe(bs, p, DOUBLE) { case Fail => Fail case Ok(n, q) => Ok(Number(n), q) }
    else if tag == TAG_STRING then
      match ReadStr(bs, p) { case Fail => Fail case Ok(s, q) => Ok(String(s), q) }
    else if tag == TAG_ARRAY then
      match ReadLe(bs, p, WORD)
      case Fail => Fail
      case Ok(n, q) =>
        if n > |bs| then Fail
        else match DecodeItems(bs, q, n, depth + 1)
          case Fail => Fail
          case Ok(items, z) => Ok(Array(items), z)
    else if tag == TAG_OBJECT then
      match ReadLe(bs, p, WORD)
      case Fail => Fail
      case Ok(n, q) =>
        if n > |bs| then Fail
        else match DecodeProps(bs, q, n, depth + 1)
          case Fail => Fail
          case Ok(props, z) => Ok(Object(FromEntries(props)), z)
    else Fail
  }

  function DecodeItems(bs: bytes, pos: nat, n: nat, depth: nat): (r: Parsed<seq<Value>>)
    requires pos <= |bs|
    ensures r.Ok? ==> pos + n <= r.pos <= |bs| && |r.value| == n
    decreases MAX_DEPTH - depth, n
  {
    if n == 0 then Ok([], pos)
    else match Decode(bs, pos, depth)
      case Fail => Fail
      case Ok(v, p) =>
        match DecodeItems(bs, p, n - 1, depth)
        case Fail => Fail
        case Ok(vs, z) => Ok([v] + vs, z)
  }

  function DecodeProp(bs: bytes, pos: nat, depth: nat): (r: Parsed<Prop>)
    ensures r.Ok? ==> pos < r.pos <= |bs|
    decreases MAX_DEPTH - depth, 1
  {
    match ReadStr(bs, pos)
    case Fail => Fail
    case Ok(k, p) =>
      match Decode(bs, p, depth)
      case Fail => Fail
      case Ok(v, q) => Ok(Prop(k, v), q)
  }

  function DecodeProps(bs: bytes, pos: nat, n: nat, depth: nat): (r: Parsed<seq<Prop>>)
    requires pos <= |bs|
    ensures r.Ok? ==> pos + n <= r.pos <= |bs| && |r.value| == n
    decreases MAX_DEPTH - depth, n + 1
  {
    if n == 0 then Ok([], pos)
    else match DecodeProp(bs, pos, depth)
      case Fail => Fail
      case Ok(p, q) =>
        match DecodeProps(bs, q, n - 1, depth)
        case Fail => Fail
        case Ok(ps, z) => Ok([p] + ps, z)
  }

  // ----- What survives a round trip -----

  function Normal(v: Value): Value
    decreases v, 1
  {
    match v
    case Hole => Undefined
    case Function => Null
    case BigInt => Null
    case Array(items) => Array(NormalItems(items))
    case Object(props) => Object(NormalProps(props))
    case _ => v
  }

  function NormalItems(vs: seq<Value>): (r: seq<Value>)
    ensures |r| == |vs|
    decreases vs, 0
  {
    if vs == [] then [] else [Normal(vs[0])] + NormalItems(vs[1..])
  }

  function NormalProps(ps: seq<Prop>): seq<Prop>
    decreases ps, 0
  {
    if ps == [] then []
    else
      var rest := NormalProps(ps[1..]);
      if Kept(ps[0]) then [Prop(ps[0].key, Normal(ps[0].value))] + rest else rest
  }

  /** No node that gets written lies at depth 128 or deeper. */
  predicate Shallow(v: Value, depth: nat)
    decreases v, 1
  {
    && depth < MAX_DEPTH
    && (v.Array? ==> ShallowItems(v.items, depth + 1))
    && (v.Object? ==> ShallowProps(v.props, depth + 1))
  }

  predicate ShallowItems(vs: seq<Value>, depth: nat)
    decreases vs, 0
  {
    vs == [] || (Shallow(vs[0], depth) && ShallowItems(vs[1..], depth))
  }

  predicate ShallowProps(ps: seq<Prop>, depth: nat)
    decreases ps, 0
  {
    ps == [] || ((Kept(ps[0]) ==> Shallow(ps[0].value, depth)) && ShallowProps(ps[1..], depth))
  }

  predicate HasKey(ps: seq<Prop>, k: bytes) {
    exists i :: 0 <= i < |ps| && ps[i].key == k
  }

  /** What the source's types guarantee: text is UTF-8, keys are distinct, numbers are 64 bits. */
  predicate Typed(v: Value)
    decreases v, 1
  {
    match v
    case Number(bits) => bits < 0x1_0000_0000_0000_0000
    case String(s) => ValidUtf8(s)
    case Array(items) => TypedItems(items)
    case Object(props) => TypedProps(props)
    case _ => true
  }

  predicate TypedItems(vs: seq<Value>)
    decreases vs, 0
  {
    vs == [] || (Typed(vs[0]) && TypedItems(vs[1..]))
  }

  predicate TypedProps(ps: seq<Prop>)
    decreases ps, 0
  {
    ps == [] || (
      && ValidUtf8(ps[0].key) && !HasKey(ps[1..], ps[0].key)
      && Typed(ps[0].value) && TypedProps(ps[1..]))
  }

  /** Every length and count that gets written has 32 bits. */
  predicate Writable(v: Value, depth: nat)
    decreases v, 1
  {
    depth < MAX_DEPTH ==>
      match v
      case String(s) => |s| < MAX_LENGTH
      case Array(items) => |items| < MAX_LENGTH && WritableItems(items, depth + 1)
      case Object(props) => KeptCount(props) < MAX_LENGTH && WritableProps(props, depth + 1)
      case _ => true
  }

  predicate WritableItems(vs: seq<Value>, depth: nat)
    decreases vs, 0
  {
    vs == [] || (Writable(vs[0], depth) && WritableItems(vs[1..], depth))
  }

  predicate WritableProps(ps: seq<Prop>, depth: nat)
    decreases ps, 0
  {
    ps == [] || (
      && (Kept(ps[0]) ==> |ps[0].key| < MAX_LENGTH && Writable(ps[0].value, depth))
      && WritableProps(ps[1..], depth))
  }

  // ----- Round trip -----

  /** Reading the tag of an encoding that stands at `pos`. */
  lemma TagAt(bs: bytes, pos: nat, depth: nat, tag: byte, body: bytes)
    requires At(bs, pos, [tag] + body) && depth < MAX_DEPTH
    ensures At(bs, pos + 1, body) && Decode(bs, pos, depth) == DecodeBody(bs, pos + 1, depth, tag)
  {
    AtSplit(bs, pos, [tag], body);
    ReadByteAt(bs, pos, tag);
  }

  lemma LengthAt(bs: bytes, pos: nat, n: nat, body: bytes)
    requires At(bs, pos, Le(n, WORD) + body) && n < MAX_LENGTH
    ensures At(bs, pos + WORD, body) && ReadLe(bs, pos, WORD) == Ok(n, pos + WORD)
  {
    assert n < Pow256(WORD) by { Pow256Values(); }
    AtSplit(bs, pos, Le(n, WORD), body);
    ReadLeAt(bs, pos, n, WORD);
  }

  /** Values written as a bare tag. */
  lemma TagRoundTrip(bs: bytes, pos: nat, v: Value, depth: nat)
    requires At(bs, pos, Encode(v, depth)) && depth < MAX_DEPTH
    requires v.Undefined? || v.Hole? || v.Null? || v.Function? || v.BigInt?
    ensures Decode(bs, pos, depth) == Ok(Normal(v), pos + |Encode(v, depth)|)
  {
    var tag := Encode(v, depth)[0];
    assert Encode(v, depth) == [tag] + [];
    TagAt(bs, pos, depth, tag, []);
  }

  lemma ScalarRoundTrip(bs: bytes, pos: nat, v: Value, depth: nat)
    requires Typed(v) && At(bs, pos, Encode(v, depth)) && depth < MAX_DEPTH && (v.Bool? || v.Number?)
    ensures Decode(bs, pos, depth) == Ok(Normal(v), pos + |Encode(v, depth)|)
  {
    if v.Bool? {
      TagAt(bs, pos, depth, TAG_BOOL, [if v.b then 1 else 0]);
      ReadByteAt(bs, pos + 1, if v.b then 1 else 0);
    } else {
      TagAt(bs, pos, depth, TAG_NUMBER, Le(v.bits, DOUBLE));
      assert v.bits < Pow256(DOUBLE) by { Pow256Values(); }
      ReadLeAt(bs, pos + 1, v.bits, DOUBLE);
    }
  }

  lemma StringRoundTrip(bs: bytes, pos: nat, v: Value, depth: nat)
    requires Typed(v) && Writable(v, depth) && At(bs, pos, Encode(v, depth)) && depth < MAX_DEPTH && v.String?
    ensures Decode(bs, pos, depth) == Ok(Normal(v), pos + |Encode(v, depth)|)
  {
    TagAt(bs, pos, depth, TAG_STRING, StrBytes(v.s));
    ShortStrAt(bs, pos + 1, v.s);
  }

  /** A counted body after its tag: the count is read and passes the length guard. */
  lemma CountedAt(bs: bytes, pos: nat, depth: nat, tag: byte, n: nat, body: bytes)
    requires At(bs, pos, [tag] + (Le(n, WORD) + body)) && depth < MAX_DEPTH && n < MAX_LENGTH && n <= |body|
    ensures At(bs, pos + 1 + WORD, body) && n <= |bs| && ReadLe(bs, pos + 1, WORD) == Ok(n, pos + 1 + WORD)
    ensures Decode(bs, pos, depth) == DecodeBody(bs, pos + 1, depth, tag)
  {
    TagAt(bs, pos, depth, tag, Le(n, WORD) + body);
    LengthAt(bs, pos + 1, n, body);
  }

  lemma ArrayBody(bs: bytes, p: nat, depth: nat, n: nat)
    requires depth < MAX_DEPTH && p + WORD <= |bs| && ReadLe(bs, p, WORD) == Ok(n, p + WORD) && n <= |bs|
    ensures DecodeBody(bs, p, depth, TAG_ARRAY) ==
            match DecodeItems(bs, p + WORD, n, depth + 1)
            case Fail => Fail
            case Ok(vs, z) => Ok(Array(vs), z)
  {
  }

  lemma ObjectBody(bs: bytes, p: nat, depth: nat, n: nat)
    requires depth < MAX_DEPTH && p + WORD <= |bs| && ReadLe(bs, p, WORD) == Ok(n, p + WORD) && n <= |bs|
    ensures DecodeBody(bs, p, depth, TAG_OBJECT) ==
            match DecodeProps(bs, p + WORD, n, depth + 1)
            case Fail => Fail
            case Ok(ps, z) => Ok(Object(FromEntries(ps)), z)
  {
  }

  lemma ArrayAt(bs: bytes, pos: nat, items: seq<Value>, depth: nat)
    requires At(bs, pos, Encode(Array(items), depth)) && depth < MAX_DEPTH && |items| < MAX_LENGTH
    ensures |Encode(Array(items), depth)| == 5 + |EncodeItems(items, depth + 1)|
    ensures At(bs, pos + 1 + WORD, EncodeItems(items, depth + 1))
    ensures Decode(bs, pos, depth) ==
            match DecodeItems(bs, pos + 1 + WORD, |items|, depth + 1)
            case Fail => Fail
            case Ok(vs, z) => Ok(Array(vs), z)
  {
    CountedAt(bs, pos, depth, TAG_ARRAY, |items|, EncodeItems(items, depth + 1));
    ArrayBody(bs, pos + 1, depth, |items|);
  }

  /** A counted object body of any bytes. */
  lemma CountedObject(bs: bytes, pos: nat, depth: nat, n: nat, body: bytes)
    requires At(bs, pos, [TAG_OBJECT] + (Le(n, WORD) + body)) && depth < MAX_DEPTH && n < MAX_LENGTH && n <= |body|
    ensures At(bs, pos + 1 + WORD, body)
    ensures Decode(bs, pos, depth) ==
            match DecodeProps(bs, pos + 1 + WORD, n, depth + 1)
            case Fail => Fail
            case Ok(ps, z) => Ok(Object(FromEntries(ps)), z)
  {
    CountedAt(bs, pos, depth, TAG_OBJECT, n, body);
    ObjectBody(bs, pos + 1, depth, n);
  }

  lemma ObjectAt(bs: bytes, pos: nat, props: seq<Prop>, depth: nat)
    requires At(bs, pos, Encode(Object(props), depth)) && depth < MAX_DEPTH && KeptCount(props) < MAX_LENGTH
    ensures |Encode(Object(props), depth)| == 5 + |EncodeProps(props, depth + 1)|
    ensures At(bs, pos + 1 + WORD, EncodeProps(props, depth + 1))
    ensures Decode(bs, pos, depth) ==
            match ActualProps(bs, pos + 1 + WORD, props, depth + 1)
            case Fail => Fail
            case Ok(ps, z) => Ok(Object(FromEntries(ps)), z)
  {
    CountedObject(bs, pos, depth, KeptCount(props), EncodeProps(props, depth + 1));
  }

  /** With lengths of 32 bits, decoding an encoding gives the normal form and consumes exactly the
      encoding, unless some written node is too deep, in which case it fails. */
  lemma {:induction false} ReadBack(bs: bytes, pos: nat, v: Value, depth: nat)
    requires Typed(v) && Writable(v, depth) && At(bs, pos, Encode(v, depth))
    ensures Decode(bs, pos, depth) == if Shallow(v, depth) then Ok(Normal(v), pos + |Encode(v, depth)|) else Fail
    decreases v, 1
  {
    if depth >= MAX_DEPTH {
    } else if v.Array? {
      ArrayAt(bs, pos, v.items, depth);
      ReadBackItems(bs, pos + 1 + WORD, v.items, depth + 1);
    } else if v.Object? {
      ObjectAt(bs, pos, v.props, depth);
      ReadBackProps(bs, pos + 1 + WORD, v.props, depth + 1);
      NormalKeys(v.props);
      FromDistinct(NormalProps(v.props));
    } else if v.Bool? || v.Number? {
      ScalarRoundTrip(bs, pos, v, depth);
    } else if v.String? {
      StringRoundTrip(bs, pos, v, depth);
    } else {
      TagRoundTrip(bs, pos, v, depth);
    }
  }

  /** What the decoder is expected to return for `vs` written at `pos`. */
  function ExpectedItems(pos: nat, vs: seq<Value>, depth: nat): Parsed<seq<Value>> {
    if ShallowItems(vs, depth) then Ok(NormalItems(vs), pos + |EncodeItems(vs, depth)|) else Fail
  }

  lemma ItemHead(vs: seq<Value>, depth: nat)
    requires vs != []
    ensures NormalItems(vs) == [Normal(vs[0])] + NormalItems(vs[1..])
    ensures ShallowItems(vs, depth) == (Shallow(vs[0], depth) && ShallowItems(vs[1..], depth))
    ensures EncodeItems(vs, depth) == Encode(vs[0], depth) + EncodeItems(vs[1..], depth)
  {
  }

  /** An element read before others. */
  function PutFirst<T>(head: Parsed<T>, rest: Parsed<seq<T>>): Parsed<seq<T>> {
    if head.Fail? || rest.Fail? then Fail else Ok([head.value] + rest.value, rest.pos)
  }

  lemma DecodeItemHead(bs: bytes, pos: nat, n: nat, depth: nat)
    requires n > 0 && pos <= |bs|
    ensures var head := Decode(bs, pos, depth);
            DecodeItems(bs, pos, n, depth) == if head.Fail? then Fail else PutFirst(head, DecodeItems(bs, head.pos, n - 1, depth))
  {
  }

  /** An element and then the others: `whole` is read as `head`, then `rest`. */
  lemma ItemFirst(pos: nat, vs: seq<Value>, depth: nat, head: Parsed<Value>, rest: Parsed<seq<Value>>, whole: Parsed<seq<Value>>)
    requires vs != [] && head == if Shallow(vs[0], depth) then Ok(Normal(vs[0]), pos + |Encode(vs[0], depth)|) else Fail
    requires rest == ExpectedItems(pos + |Encode(vs[0], depth)|, vs[1..], depth)
    requires whole == if head.Fail? then Fail else PutFirst(head, rest)
    ensures whole == ExpectedItems(pos, vs, depth)
  {
    ItemHead(vs, depth);
  }

  lemma {:induction false} ReadBackItems(bs: bytes, pos: nat, vs: seq<Value>, depth: nat)
    requires TypedItems(vs) && WritableItems(vs, depth) && At(bs, pos, EncodeItems(vs, depth))
    ensures DecodeItems(bs, pos, |vs|, depth) == ExpectedItems(pos, vs, depth)
    decreases vs, 0
  {
    if vs != [] {
      var head, tail := Encode(vs[0], depth), EncodeItems(vs[1..], depth);
      AtSplit(bs, pos, head, tail);
      ReadBack(bs, pos, vs[0], depth);
      ReadBackItems(bs, pos + |head|, vs[1..], depth);
      DecodeItemHead(bs, pos, |vs|, depth);
      ItemFirst(pos, vs, depth, Decode(bs, pos, depth), DecodeItems(bs, pos + |head|, |vs[1..]|, depth), DecodeItems(bs, pos, |vs|, depth));
    }
  }

  lemma {:induction false} InsertNew(ps: seq<Prop>, k: bytes, v: Value)
    requires !HasKey(ps, k)
    ensures Insert(ps, k, v) == ps + [Prop(k, v)]
  {
    if ps != [] {
      assert ps[0].key != k;
      assert forall i :: 0 <= i < |ps| - 1 ==> ps[1..][i] == ps[i + 1];
      InsertNew(ps[1..], k, v);
      assert ps + [Prop(k, v)] == [ps[0]] + (ps[1..] + [Prop(k, v)]);
    }
  }

  ghost predicate DistinctKeys(ps: seq<Prop>) {
    forall i, j :: 0 <= i < j < |ps| ==> ps[i].key != ps[j].key
  }

  /** Entries with distinct keys are the map they build. */
  lemma {:induction false} FromDistinct(ps: seq<Prop>)
    requires DistinctKeys(ps)
    ensures FromEntries(ps) == ps
  {
    if ps != [] {
      var front, last := ps[..|ps| - 1], ps[|ps| - 1];
      FromDistinct(front);
      InsertNew(front, last.key, last.value);
      assert ps == front + [last];
    }
  }

  lemma {:induction false} NormalHasKey(ps: seq<Prop>, k: bytes)
    requires !HasKey(ps, k)
    ensures forall i :: 0 <= i < |NormalProps(ps)| ==> NormalProps(ps)[i].key != k
    decreases |ps|
  {
    if ps != [] {
      assert ps[0].key != k;
      assert forall i :: 0 <= i < |ps| - 1 ==> ps[1..][i] == ps[i + 1];
      NormalHasKey(ps[1..], k);
    }
  }

  lemma {:induction false} NormalKeys(ps: seq<Prop>)
    requires TypedProps(ps)
    ensures DistinctKeys(NormalProps(ps))
    decreases |ps|
  {
    if ps != [] {
      NormalKeys(ps[1..]);
      NormalHasKey(ps[1..], ps[0].key);
    }
  }

  lemma PropAt(bs: bytes, pos: nat, p: Prop, depth: nat, tail: bytes)
    requires At(bs, pos, EncodeProp(p, depth) + tail) && ValidUtf8(p.key) && |p.key| < MAX_LENGTH
    ensures ReadStr(bs, pos) == Ok(p.key, pos + |StrBytes(p.key)|)
    ensures At(bs, pos + |StrBytes(p.key)|, Encode(p.value, depth)) && At(bs, pos + |EncodeProp(p, depth)|, tail)
  {
    AtSplit(bs, pos, EncodeProp(p, depth), tail);
    AtSplit(bs, pos, StrBytes(p.key), Encode(p.value, depth));
    ShortStrAt(bs, pos, p.key);
  }

  lemma {:induction false} ReadBackProp(bs: bytes, pos: nat, p: Prop, depth: nat, tail: bytes)
    requires At(bs, pos, EncodeProp(p, depth) + tail) && ValidUtf8(p.key) && |p.key| < MAX_LENGTH && Typed(p.value) && Writable(p.value, depth)
    ensures At(bs, pos + |EncodeProp(p, depth)|, tail)
    ensures DecodeProp(bs, pos, depth) ==
            if Shallow(p.value, depth) then Ok(Prop(p.key, Normal(p.value)), pos + |EncodeProp(p, depth)|) else Fail
    decreases p.value, 2
  {
    PropAt(bs, pos, p, depth, tail);
    ReadBack(bs, pos + |StrBytes(p.key)|, p.value, depth);
  }

  lemma KeptHead(ps: seq<Prop>, depth: nat)
    requires ps != [] && Kept(ps[0])
    ensures KeptCount(ps) == KeptCount(ps[1..]) + 1
    ensures NormalProps(ps) == [Prop(ps[0].key, Normal(ps[0].value))] + NormalProps(ps[1..])
    ensures ShallowProps(ps, depth) == (Shallow(ps[0].value, depth) && ShallowProps(ps[1..], depth))
    ensures EncodeProps(ps, depth) == EncodeProp(ps[0], depth) + EncodeProps(ps[1..], depth)
  {
  }

  /** What the decoder is expected to return for `ps` written at `pos`. */
  function ExpectedProps(pos: nat, ps: seq<Prop>, depth: nat): Parsed<seq<Prop>> {
    if ShallowProps(ps, depth) then Ok(NormalProps(ps), pos + |EncodeProps(ps, depth)|) else Fail
  }

  lemma ExpectedSkipped(pos: nat, ps: seq<Prop>, depth: nat)
    requires ps != [] && !Kept(ps[0])
    ensures ExpectedProps(pos, ps, depth) == ExpectedProps(pos, ps[1..], depth)
    ensures KeptCount(ps) == KeptCount(ps[1..]) && EncodeProps(ps, depth) == EncodeProps(ps[1..], depth)
  {
  }

  /** What the decoder returns for as many properties as `ps` keeps. */
  function ActualProps(bs: bytes, pos: nat, ps: seq<Prop>, depth: nat): Parsed<seq<Prop>>
    requires pos <= |bs|
  {
    DecodeProps(bs, pos, KeptCount(ps), depth)
  }

  lemma DecodePropHead(bs: bytes, pos: nat, n: nat, depth: nat)
    requires n > 0 && pos <= |bs|
    ensures var head := DecodeProp(bs, pos, depth);
            DecodeProps(bs, pos, n, depth) == if head.Fail? then Fail else PutFirst(head, DecodeProps(bs, head.pos, n - 1, depth))
  {
  }

  /** A kept property and then the others: `whole` is read as `head`, then `rest`. */
  lemma KeptFirst(pos: nat, ps: seq<Prop>, depth: nat, head: Parsed<Prop>, rest: Parsed<seq<Prop>>, whole: Parsed<seq<Prop>>)
    requires ps != [] && Kept(ps[0])
    requires head == if Shallow(ps[0].value, depth) then Ok(Prop(ps[0].key, Normal(ps[0].value)), pos + |EncodeProp(ps[0], depth)|) else Fail
    requires rest == ExpectedProps(pos + |EncodeProp(ps[0], depth)|, ps[1..], depth)
    requires whole == if head.Fail? then Fail else PutFirst(head, rest)
    ensures whole == ExpectedProps(pos, ps, depth)
  {
    KeptHead(ps, depth);
  }

  /** The property at `pos` read before those that follow it. */
  lemma KeptReads(bs: bytes, pos: nat, ps: seq<Prop>, depth: nat, next: nat)
    requires ps != [] && Kept(ps[0]) && pos <= |bs| && next <= |bs|
    requires var head := DecodeProp(bs, pos, depth); head.Fail? || head.pos == next
    ensures var head, rest := DecodeProp(bs, pos, depth), ActualProps(bs, next, ps[1..], depth);
            ActualProps(bs, pos, ps, depth) == if head.Fail? then Fail else PutFirst(head, rest)
  {
    DecodePropHead(bs, pos, KeptCount(ps), depth);
    assert KeptCount(ps) == KeptCount(ps[1..]) + 1;
  }

  lemma {:induction false} ReadBackProps(bs: bytes, pos: nat, ps: seq<Prop>, depth: nat)
    requires TypedProps(ps) && WritableProps(ps, depth) && At(bs, pos, EncodeProps(ps, depth))
    ensures ActualProps(bs, pos, ps, depth) == ExpectedProps(pos, ps, depth)
    decreases ps, 0
  {
    if ps == [] {
    } else if !Kept(ps[0]) {
      ExpectedSkipped(pos, ps, depth);
      ReadBackProps(bs, pos, ps[1..], depth);
    } else {
      assert EncodeProps(ps, depth) == EncodeProp(ps[0], depth) + EncodeProps(ps[1..], depth) by { KeptHead(ps, depth); }
      ReadBackProp(bs, pos, ps[0], depth, EncodeProps(ps[1..], depth));
      var next := pos + |EncodeProp(ps[0], depth)|;
      ReadBackProps(bs, next, ps[1..], depth);
      KeptReads(bs, pos, ps, depth, next);
      KeptFirst(pos, ps, depth, DecodeProp(bs, pos, depth), ActualProps(bs, next, ps[1..], depth), ActualProps(bs, pos, ps, depth));
    }
  }

  // ----- What a file can carry -----

  /** Values a successful read can return: all lengths have 32 bits, no node is at depth 128. */
  predicate Carried(v: Value, depth: nat)
    decreases v, 1
  {
    depth < MAX_DEPTH &&
      match v
      case String(s) => |s| < MAX_LENGTH
      case Array(items) => |items| < MAX_LENGTH && CarriedItems(items, depth + 1)
      case Object(props) => |props| < MAX_LENGTH && CarriedProps(props, depth + 1)
      case _ => true
  }

  predicate CarriedItems(vs: seq<Value>, depth: nat)
    decreases vs, 0
  {
    vs == [] || (Carried(vs[0], depth) && CarriedItems(vs[1..], depth))
  }

  predicate CarriedProps(ps: seq<Prop>, depth: nat)
    decreases ps, 0
  {
    ps == [] || (|ps[0].key| < MAX_LENGTH && Carried(ps[0].value, depth) && CarriedProps(ps[1..], depth))
  }

  lemma {:induction false} InsertCarried(ps: seq<Prop>, k: bytes, v: Value, depth: nat)
    requires CarriedProps(ps, depth) && |k| < MAX_LENGTH && Carried(v, depth)
    ensures CarriedProps(Insert(ps, k, v), depth) && |Insert(ps, k, v)| <= |ps| + 1
    decreases |ps|
  {
    var r := Insert(ps, k, v);
    if ps == [] {
      assert r[1..] == [];
    } else if ps[0].key == k {
      assert r[1..] == ps[1..];
    } else {
      InsertCarried(ps[1..], k, v, depth);
      assert r[1..] == Insert(ps[1..], k, v);
    }
  }

  lemma {:induction false} FrontCarried(ps: seq<Prop>, depth: nat)
    requires ps != [] && CarriedProps(ps, depth)
    ensures CarriedProps(ps[..|ps| - 1], depth)
    ensures |ps[|ps| - 1].key| < MAX_LENGTH && Carried(ps[|ps| - 1].value, depth)
    decreases |ps|
  {
    if |ps| > 1 {
      FrontCarried(ps[1..], depth);
      assert ps[..|ps| - 1][1..] == ps[1..][..|ps| - 2];
    }
  }

  lemma {:induction false} EntriesCarried(ps: seq<Prop>, depth: nat)
    requires CarriedProps(ps, depth)
    ensures CarriedProps(FromEntries(ps), depth) && |FromEntries(ps)| <= |ps|
    decreases |ps|
  {
    if ps != [] {
      var last := ps[|ps| - 1];
      FrontCarried(ps, depth);
      EntriesCarried(ps[..|ps| - 1], depth);
      InsertCarried(FromEntries(ps[..|ps| - 1]), last.key, last.value, depth);
    }
  }

  /** Whatever the bytes are, a successful read returns a value a file can carry. */
  lemma {:induction false} DecodedIsCarried(bs: bytes, pos: nat, depth: nat)
    requires Decode(bs, pos, depth).Ok?
    ensures Carried(Decode(bs, pos, depth).value, depth)
    decreases MAX_DEPTH - depth, 0
  {
    var p, tag := pos + 1, ReadByte(bs, pos).value;
    if tag == TAG_STRING {
      StrIsShort(bs, p);
    } else if tag == TAG_ARRAY {
      WordIsShort(bs, p);
      DecodedItemsAreCarried(bs, p + WORD, ReadLe(bs, p, WORD).value, depth + 1);
    } else if tag == TAG_OBJECT {
      WordIsShort(bs, p);
      DecodedPropsAreCarried(bs, p + WORD, ReadLe(bs, p, WORD).value, depth + 1);
      EntriesCarried(DecodeProps(bs, p + WORD, ReadLe(bs, p, WORD).value, depth + 1).value, depth + 1);
    }
  }

  lemma {:induction false} DecodedItemsAreCarried(bs: bytes, pos: nat, n: nat, depth: nat)
    requires pos <= |bs| && DecodeItems(bs, pos, n, depth).Ok?
    ensures CarriedItems(DecodeItems(bs, pos, n, depth).value, depth)
    decreases MAX_DEPTH - depth, n
  {
    if n > 0 {
      DecodedIsCarried(bs, pos, depth);
      DecodedItemsAreCarried(bs, Decode(bs, pos, depth).pos, n - 1, depth);
      var all := DecodeItems(bs, pos, n, depth).value;
      assert all[1..] == DecodeItems(bs, Decode(bs, pos, depth).pos, n - 1, depth).value;
    }
  }

  lemma {:induction false} DecodedPropsAreCarried(bs: bytes, pos: nat, n: nat, depth: nat)
    requires pos <= |bs| && DecodeProps(bs, pos, n, depth).Ok?
    ensures CarriedProps(DecodeProps(bs, pos, n, depth).value, depth)
    decreases MAX_DEPTH - depth, n
  {
    if n > 0 {
      StrIsShort(bs, pos);
      DecodedIsCarried(bs, ReadStr(bs, pos).pos, depth);
      DecodedPropsAreCarried(bs, DecodeProp(bs, pos, depth).pos, n - 1, depth);
      var all := DecodeProps(bs, pos, n, depth).value;
      assert all[1..] == DecodeProps(bs, DecodeProp(bs, pos, depth).pos, n - 1, depth).value;
    }
  }

  /** A value whose normal form a file can carry is shallow and writable. */
  lemma {:induction false} CarriedNormal(v: Value, depth: nat)
    requires Carried(Normal(v), depth)
    ensures Shallow(v, depth) && Writable(v, depth)
    decreases v, 1
  {
    if v.Array? {
      CarriedNormalItems(v.items, depth + 1);
    } else if v.Object? {
      CarriedNormalProps(v.props, depth + 1);
    }
  }

  lemma {:induction false} CarriedNormalItems(vs: seq<Value>, depth: nat)
    requires CarriedItems(NormalItems(vs), depth)
    ensures ShallowItems(vs, depth) && WritableItems(vs, depth)
    decreases vs, 0
  {
    if vs != [] {
      assert NormalItems(vs)[1..] == NormalItems(vs[1..]);
      CarriedNormal(vs[0], depth);
      CarriedNormalItems(vs[1..], depth);
    }
  }

  lemma {:induction false} CarriedNormalProps(ps: seq<Prop>, depth: nat)
    requires CarriedProps(NormalProps(ps), depth)
    ensures ShallowProps(ps, depth) && WritableProps(ps, depth) && |NormalProps(ps)| == KeptCount(ps)
    decreases ps, 0
  {
    if ps != [] {
      if Kept(ps[0]) {
        assert NormalProps(ps)[1..] == NormalProps(ps[1..]);
        CarriedNormal(ps[0].value, depth);
      }
      CarriedNormalProps(ps[1..], depth);
    }
  }

  /** Only a shallow and writable value is ever read as its normal form. */
  lemma OnlyIf(bs: bytes, pos: nat, v: Value, depth: nat)
    requires Decode(bs, pos, depth).Ok? && Decode(bs, pos, depth).value == Normal(v)
    ensures Shallow(v, depth) && Writable(v, depth)
  {
    DecodedIsCarried(bs, pos, depth);
    CarriedNormal(v, depth);
  }

  /** Decoding an encoding gives the normal form and consumes exactly the encoding if and only if no
      written node is at depth 128 or deeper and every written length has 32 bits; a value that is
      only too deep is rejected. */
  lemma RoundTrip(bs: bytes, pos: nat, v: Value, depth: nat)
    requires Typed(v) && At(bs, pos, Encode(v, depth))
    ensures Decode(bs, pos, depth) == Ok(Normal(v), pos + |Encode(v, depth)|) <==> Shallow(v, depth) && Writable(v, depth)
    ensures Writable(v, depth) && !Shallow(v, depth) ==> Decode(bs, pos, depth) == Fail
  {
    if Writable(v, depth) { ReadBack(bs, pos, v, depth); }
    if Decode(bs, pos, depth) == Ok(Normal(v), pos + |Encode(v, depth)|) { OnlyIf(bs, pos, v, depth); }
  }

  lemma RoundTripItems(bs: bytes, pos: nat, vs: seq<Value>, depth: nat)
    requires TypedItems(vs) && At(bs, pos, EncodeItems(vs, depth))
    ensures DecodeItems(bs, pos, |vs|, depth) == Ok(NormalItems(vs), pos + |EncodeItems(vs, depth)|)
            <==> ShallowItems(vs, depth) && WritableItems(vs, depth)
    ensures WritableItems(vs, depth) && !ShallowItems(vs, depth) ==> DecodeItems(bs, pos, |vs|, depth) == Fail
  {
    if WritableItems(vs, depth) { ReadBackItems(bs, pos, vs, depth); }
    if DecodeItems(bs, pos, |vs|, depth) == Ok(NormalItems(vs), pos + |EncodeItems(vs, depth)|) {
      DecodedItemsAreCarried(bs, pos, |vs|, depth);
      CarriedNormalItems(vs, depth);
    }
  }

  lemma RoundTripProps(bs: bytes, pos: nat, ps: seq<Prop>, depth: nat)
    requires TypedProps(ps) && At(bs, pos, EncodeProps(ps, depth))
    ensures ActualProps(bs, pos, ps, depth) == Ok(NormalProps(ps), pos + |EncodeProps(ps, depth)|)
            <==> ShallowProps(ps, depth) && WritableProps(ps, depth)
    ensures WritableProps(ps, depth) && !ShallowProps(ps, depth) ==> ActualProps(bs, pos, ps, depth) == Fail
  {
    if WritableProps(ps, depth) { ReadBackProps(bs, pos, ps, depth); }
    if ActualProps(bs, pos, ps, depth) == Ok(NormalProps(ps), pos + |EncodeProps(ps, depth)|) {
      DecodedPropsAreCarried(bs, pos, KeptCount(ps), depth);
      CarriedNormalProps(ps, depth);
    }
  }

  /** Any string, however long, reads back as the part its written length stands for, if that part
      ends between characters; otherwise the read fails. */
  lemma StringReadsBack(bs: bytes, pos: nat, s: bytes, depth: nat)
    requires At(bs, pos, Encode(String(s), depth)) && depth < MAX_DEPTH
    ensures Decode(bs, pos, depth) ==
            if ValidUtf8(s[..Remainder(s)]) then Ok(String(s[..Remainder(s)]), pos + 5 + Remainder(s)) else Fail
  {
    TagAt(bs, pos, depth, TAG_STRING, StrBytes(s));
    ReadStrCut(bs, pos + 1, s);
  }

  /** The failing input: 2^32 bytes of text read back as the empty string, and what follows is read
      from the middle of the text. */
  lemma LongStringIsLost(bs: bytes, pos: nat, s: bytes, depth: nat)
    requires At(bs, pos, Encode(String(s), depth)) && depth < MAX_DEPTH && |s| == MAX_LENGTH
    ensures Decode(bs, pos, depth) == Ok(String([]), pos + 5) && !Writable(String(s), depth)
  {
    StringReadsBack(bs, pos, s, depth);
    assert s[..0] == [];
  }

  // ----- What an application gets back -----

  /** Data that survives unchanged: null, booleans, numbers and strings, arrays of them and of
      undefined, and objects of them under keys that do not begin with byte 1. */
  predicate Plain(v: Value)
    decreases v, 1
  {
    match v
    case Undefined => true
    case Null => true
    case Bool(_) => true
    case Number(_) => true
    case String(_) => true
    case Array(items) => PlainItems(items)
    case Object(props) => PlainProps(props)
    case _ => false
  }

  predicate PlainItems(vs: seq<Value>)
    decreases vs, 0
  {
    vs == [] || (Plain(vs[0]) && PlainItems(vs[1..]))
  }

  predicate PlainProps(ps: seq<Prop>)
    decreases ps, 0
  {
    ps == [] || (
      && (|ps[0].key| > 0 ==> ps[0].key[0] != 1)
      && Plain(ps[0].value) && !ps[0].value.Undefined? && PlainProps(ps[1..]))
  }

  lemma {:induction false} PlainIsNormal(v: Value)
    requires Plain(v)
    ensures Normal(v) == v
    decreases v, 1
  {
    if v.Array? { PlainItemsAreNormal(v.items); }
    if v.Object? { PlainPropsAreNormal(v.props); }
  }

  lemma {:induction false} PlainItemsAreNormal(vs: seq<Value>)
    requires PlainItems(vs)
    ensures NormalItems(vs) == vs
    decreases vs, 0
  {
    if vs != [] {
      PlainIsNormal(vs[0]);
      PlainItemsAreNormal(vs[1..]);
      assert vs == [vs[0]] + vs[1..];
    }
  }

  lemma {:induction false} PlainPropsAreNormal(ps: seq<Prop>)
    requires PlainProps(ps)
    ensures NormalProps(ps) == ps
    decreases ps, 0
  {
    if ps != [] {
      PlainIsNormal(ps[0].value);
      PlainPropsAreNormal(ps[1..]);
      assert ps == [ps[0]] + ps[1..];
    }
  }

  /** Plain data within the limits reads back as itself. */
  lemma PlainReadsBack(bs: bytes, pos: nat, v: Value, depth: nat)
    requires Typed(v) && Plain(v) && Shallow(v, depth) && Writable(v, depth) && At(bs, pos, Encode(v, depth))
    ensures Decode(bs, pos, depth) == Ok(v, pos + |Encode(v, depth)|)
  {
    PlainIsNormal(v);
    RoundTrip(bs, pos, v, depth);
  }

  /** Holes read back as undefined; functions and big integers as null. */
  lemma OddValuesReadBack(bs: bytes, pos: nat, v: Value, depth: nat)
    requires At(bs, pos, Encode(v, depth)) && depth < MAX_DEPTH
    ensures v.Hole? || v.Undefined? ==> Decode(bs, pos, depth) == Ok(Undefined, pos + 1)
    ensures v.Function? || v.BigInt? || v.Null? ==> Decode(bs, pos, depth) == Ok(Null, pos + 1)
  {
    if v.Undefined? || v.Hole? || v.Null? || v.Function? || v.BigInt? { TagRoundTrip(bs, pos, v, depth); }
  }

  /** A property an application stored: its key is not engine-internal and its value is data. */
  predicate IsData(p: Prop) { (|p.key| == 0 || p.key[0] != 1) && !p.value.Undefined? && !p.value.Function? }

  ghost predicate Rising(from: seq<nat>) { forall i, j :: 0 <= i < j < |from| ==> from[i] < from[j] }

  ghost predicate ComesFrom<A, B>(xs: seq<A>, keep: A -> bool, image: A -> B, ys: seq<B>, from: seq<nat>) {
    |from| == |ys| && forall j :: 0 <= j < |from| ==> from[j] < |xs| && keep(xs[from[j]]) && ys[j] == image(xs[from[j]])
  }

  ghost predicate Misses<A>(xs: seq<A>, keep: A -> bool, from: seq<nat>) {
    exists i :: 0 <= i < |xs| && keep(xs[i]) && i !in from
  }

  /** `ys` are the images of the elements of `xs` to keep, all of them, in their order; `from` says
      where each comes from. */
  ghost predicate Selected<A, B>(xs: seq<A>, keep: A -> bool, image: A -> B, ys: seq<B>, from: seq<nat>) {
    Rising(from) && ComesFrom(xs, keep, image, ys, from) && !Misses(xs, keep, from)
  }

  function Later(from: seq<nat>): (r: seq<nat>)
    ensures |r| == |from| && forall j :: 0 <= j < |from| ==> r[j] == from[j] + 1
  {
    seq(|from|, j requires 0 <= j < |from| => from[j] + 1)
  }

  lemma LaterHas(from: seq<nat>, i: nat)
    requires i in from
    ensures i + 1 in Later(from)
  {
    var j :| 0 <= j < |from| && from[j] == i;
    assert Later(from)[j] == i + 1;
  }

  lemma RisingLater(from: seq<nat>)
    requires Rising(from)
    ensures Rising(Later(from)) && Rising([0] + Later(from))
  {
    var r := [0] + Later(from);
    forall i, j | 0 <= i < j < |r| ensures r[i] < r[j] {
      if i > 0 { assert from[i - 1] < from[j - 1]; }
    }
  }

  lemma FromTail<A, B>(xs: seq<A>, keep: A -> bool, image: A -> B, ys: seq<B>, from: seq<nat>)
    requires xs != [] && ComesFrom(xs[1..], keep, image, ys, from)
    ensures ComesFrom(xs, keep, image, ys, Later(from))
  {
  }

  lemma FromFirst<A, B>(xs: seq<A>, keep: A -> bool, image: A -> B, ys: seq<B>, from: seq<nat>)
    requires xs != [] && keep(xs[0]) && ComesFrom(xs, keep, image, ys, from)
    ensures ComesFrom(xs, keep, image, [image(xs[0])] + ys, [0] + from)
  {
  }

  lemma MissesTail<A>(xs: seq<A>, keep: A -> bool, from: seq<nat>, r: seq<nat>)
    requires xs != [] && Misses(xs, keep, r) && (0 in r || !keep(xs[0])) && forall i :: i in Later(from) ==> i in r
    ensures Misses(xs[1..], keep, from)
  {
    var i :| 0 <= i < |xs| && keep(xs[i]) && i !in r;
    assert xs[1..][i - 1] == xs[i];
    if i - 1 in from { LaterHas(from, i - 1); }
  }

  lemma SelectFirst<A, B>(xs: seq<A>, keep: A -> bool, image: A -> B, ys: seq<B>, from: seq<nat>)
    requires xs != [] && keep(xs[0]) && Selected(xs[1..], keep, image, ys, from)
    ensures Selected(xs, keep, image, [image(xs[0])] + ys, [0] + Later(from))
  {
    RisingLater(from);
    FromTail(xs, keep, image, ys, from);
    FromFirst(xs, keep, image, ys, Later(from));
    if Misses(xs, keep, [0] + Later(from)) { MissesTail(xs, keep, from, [0] + Later(from)); }
  }

  lemma SkipFirst<A, B>(xs: seq<A>, keep: A -> bool, image: A -> B, ys: seq<B>, from: seq<nat>)
    requires xs != [] && !keep(xs[0]) && Selected(xs[1..], keep, image, ys, from)
    ensures Selected(xs, keep, image, ys, Later(from))
  {
    RisingLater(from);
    FromTail(xs, keep, image, ys, from);
    if Misses(xs, keep, Later(from)) { MissesTail(xs, keep, from, Later(from)); }
  }

  /** `got` are the data properties of `ps`, all of them, in their order, with normal values. */
  ghost predicate DataOf(ps: seq<Prop>, got: seq<Prop>, from: seq<nat>) {
    Selected(ps, (p: Prop) => IsData(p), (p: Prop) => Prop(p.key, Normal(p.value)), got, from)
  }

  lemma {:induction false} NormalIsData(ps: seq<Prop>) returns (from: seq<nat>)
    ensures DataOf(ps, NormalProps(ps), from)
    decreases |ps|
  {
    var keep, image := (p: Prop) => IsData(p), (p: Prop) => Prop(p.key, Normal(p.value));
    if ps == [] {
      from := [];
    } else {
      var rest := NormalIsData(ps[1..]);
      if IsData(ps[0]) {
        from := [0] + Later(rest);
        SelectFirst(ps, keep, image, NormalProps(ps[1..]), rest);
      } else {
        from := Later(rest);
        SkipFirst(ps, keep, image, NormalProps(ps[1..]), rest);
      }
    }
  }

  /** An object within the limits reads back as its data properties, all of them, in their order. */
  lemma ObjectReadsBack(bs: bytes, pos: nat, props: seq<Prop>, depth: nat) returns (got: seq<Prop>, from: seq<nat>)
    requires Typed(Object(props)) && Shallow(Object(props), depth) && Writable(Object(props), depth)
    requires At(bs, pos, Encode(Object(props), depth))
    ensures Decode(bs, pos, depth) == Ok(Object(got), pos + |Encode(Object(props), depth)|) && DataOf(props, got, from)
  {
    RoundTrip(bs, pos, Object(props), depth);
    got := NormalProps(props);
    from := NormalIsData(props);
  }

  /** An existing key keeps its place and gets the new value. */
  lemma {:induction false} InsertOld(ps: seq<Prop>, k: bytes, v: Value) returns (i: nat)
    requires HasKey(ps, k)
    ensures i < |ps| && ps[i].key == k && Insert(ps, k, v) == ps[i := Prop(k, v)]
  {
    if ps[0].key == k {
      i := 0;
    } else {
      var h :| 0 <= h < |ps| && ps[h].key == k;
      assert ps[1..][h - 1].key == k;
      var j := InsertOld(ps[1..], k, v);
      i := j + 1;
      assert [ps[0]] + ps[1..][j := Prop(k, v)] == ps[i := Prop(k, v)];
    }
  }

  lemma InsertMembers(ps: seq<Prop>, k: bytes, v: Value)
    requires DistinctKeys(ps)
    ensures DistinctKeys(Insert(ps, k, v))
    ensures forall x :: x in Insert(ps, k, v) <==> x == Prop(k, v) || (x in ps && x.key != k)
  {
    if HasKey(ps, k) {
      var i := InsertOld(ps, k, v);
      var r := ps[i := Prop(k, v)];
      assert r[i] == Prop(k, v);
      forall x | x in ps && x.key != k ensures x in r {
        var j :| 0 <= j < |ps| && ps[j] == x;
        assert r[j] == x;
      }
    } else {
      InsertNew(ps, k, v);
      assert forall x :: x in ps ==> x.key != k;
    }
  }

  /** `ps` has `Prop(k, v)` and no later entry for `k`. */
  ghost predicate LastFor(ps: seq<Prop>, k: bytes, v: Value) {
    exists i :: 0 <= i < |ps| && ps[i] == Prop(k, v) && forall j :: i < j < |ps| ==> ps[j].key != k
  }

  lemma LastForAppend(front: seq<Prop>, last: Prop, k: bytes, v: Value)
    ensures LastFor(front + [last], k, v) <==> last == Prop(k, v) || (last.key != k && LastFor(front, k, v))
  {
    var ps := front + [last];
    if last == Prop(k, v) { assert ps[|front|] == Prop(k, v); }
    if last.key != k && LastFor(front, k, v) {
      var i :| 0 <= i < |front| && front[i] == Prop(k, v) && forall j :: i < j < |front| ==> front[j].key != k;
      assert ps[i] == Prop(k, v);
    }
    if LastFor(ps, k, v) && last != Prop(k, v) {
      var i :| 0 <= i < |ps| && ps[i] == Prop(k, v) && forall j :: i < j < |ps| ==> ps[j].key != k;
      assert front[i] == Prop(k, v) && ps[|front|] == last;
      assert forall j :: i < j < |front| ==> front[j] == ps[j];
    }
  }

  /** Where a file names a key twice, the later value counts, and no key is listed twice. */
  lemma {:induction false} LastEntryWins(ps: seq<Prop>, k: bytes, v: Value)
    ensures DistinctKeys(FromEntries(ps)) && (Prop(k, v) in FromEntries(ps) <==> LastFor(ps, k, v))
  {
    if ps != [] {
      var front, last := ps[..|ps| - 1], ps[|ps| - 1];
      LastEntryWins(front, k, v);
      InsertMembers(FromEntries(front), last.key, last.value);
      LastForAppend(front, last, k, v);
      assert ps == front + [last];
    }
  }

  // ----- Longer and shorter input -----

  /** Success on a prefix is success with the same result on every extension. */
  lemma {:induction false} DecodeExtends(bs: bytes, more: bytes, pos: nat, depth: nat)
    requires Decode(bs, pos, depth).Ok?
    ensures Decode(bs + more, pos, depth) == Decode(bs, pos, depth)
    decreases MAX_DEPTH - depth, 0
  {
    ReadsExtend(bs, more, pos, 0);
    var p := pos + 1;
    ReadsExtend(bs, more, p, DOUBLE);
    ReadsExtend(bs, more, p, WORD);
    ReadStrExtends(bs, more, p);
    var tag := ReadByte(bs, pos).value;
    if tag == TAG_ARRAY {
      DecodeItemsExtends(bs, more, p + WORD, ReadLe(bs, p, WORD).value, depth + 1);
    } else if tag == TAG_OBJECT {
      DecodePropsExtends(bs, more, p + WORD, ReadLe(bs, p, WORD).value, depth + 1);
    }
  }

  lemma {:induction false} DecodeItemsExtends(bs: bytes, more: bytes, pos: nat, n: nat, depth: nat)
    requires pos <= |bs| && DecodeItems(bs, pos, n, depth).Ok?
    ensures DecodeItems(bs + more, pos, n, depth) == DecodeItems(bs, pos, n, depth)
    decreases MAX_DEPTH - depth, n
  {
    if n > 0 {
      DecodeExtends(bs, more, pos, depth);
      DecodeItemsExtends(bs, more, Decode(bs, pos, depth).pos, n - 1, depth);
    }
  }

  lemma {:induction false} DecodePropsExtends(bs: bytes, more: bytes, pos: nat, n: nat, depth: nat)
    requires pos <= |bs| && DecodeProps(bs, pos, n, depth).Ok?
    ensures DecodeProps(bs + more, pos, n, depth) == DecodeProps(bs, pos, n, depth)
    decreases MAX_DEPTH - depth, n
  {
    if n > 0 {
      ReadStrExtends(bs, more, pos);
      DecodeExtends(bs, more, ReadStr(bs, pos).pos, depth);
      DecodePropsExtends(bs, more, DecodeProp(bs, pos, depth).pos, n - 1, depth);
    }
  }

  /** A read that ends within the first `k` bytes gives the same result on those bytes alone. */
  lemma {:induction false} DecodeShrinks(bs: bytes, k: nat, pos: nat, depth: nat)
    requires k <= |bs| && Decode(bs, pos, depth).Ok? && Decode(bs, pos, depth).pos <= k
    ensures Decode(bs[..k], pos, depth) == Decode(bs, pos, depth)
    decreases MAX_DEPTH - depth, 0
  {
    ReadsShrink(bs, k, pos, 0);
    var p := pos + 1;
    ReadsShrink(bs, k, p, DOUBLE);
    ReadsShrink(bs, k, p, WORD);
    var tag := ReadByte(bs, pos).value;
    if tag == TAG_STRING {
      ReadStrShrinks(bs, k, p);
    } else if tag == TAG_ARRAY {
      DecodeItemsShrinks(bs, k, p + WORD, ReadLe(bs, p, WORD).value, depth + 1);
    } else if tag == TAG_OBJECT {
      DecodePropsShrinks(bs, k, p + WORD, ReadLe(bs, p, WORD).value, depth + 1);
    }
  }

  lemma {:induction false} DecodeItemsShrinks(bs: bytes, k: nat, pos: nat, n: nat, depth: nat)
    requires pos <= k <= |bs| && DecodeItems(bs, pos, n, depth).Ok? && DecodeItems(bs, pos, n, depth).pos <= k
    ensures DecodeItems(bs[..k], pos, n, depth) == DecodeItems(bs, pos, n, depth)
    decreases MAX_DEPTH - depth, n
  {
    if n > 0 {
      DecodeShrinks(bs, k, pos, depth);
      DecodeItemsShrinks(bs, k, Decode(bs, pos, depth).pos, n - 1, depth);
    }
  }

  lemma {:induction false} DecodePropsShrinks(bs: bytes, k: nat, pos: nat, n: nat, depth: nat)
    requires pos <= k <= |bs| && DecodeProps(bs, pos, n, depth).Ok? && DecodeProps(bs, pos, n, depth).pos <= k
    ensures DecodeProps(bs[..k], pos, n, depth) == DecodeProps(bs, pos, n, depth)
    decreases MAX_DEPTH - depth, n
  {
    if n > 0 {
      ReadStrShrinks(bs, k, pos);
      DecodeShrinks(bs, k, ReadStr(bs, pos).pos, depth);
      DecodePropsShrinks(bs, k, DecodeProp(bs, pos, depth).pos, n - 1, depth);
    }
  }
}
