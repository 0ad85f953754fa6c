/**
 The imperative encoder and decoder of crates/cv_browser/src/idb_persist.rs lines 274-380:
 recursive procedures that append to a buffer and advance a reader.
 */
module ValueStreams {
  import opened Common
  import opened Wire
  import opened ValueCodec

  /** Writing the kept properties of a list is writing the list of kept properties. */
  lemma {:induction false} EncodeAppend(kept: seq<Prop>, p: Prop, depth: nat)
    requires Kept(p) && forall q :: q in kept ==> Kept(q)
    ensures EncodeProps(kept + [p], depth) == EncodeProps(kept, depth) + EncodeProp(p, depth)
    decreases |kept|
  {
    if kept == [] {
      assert kept + [p] == [p] && [p][1..] == [];
      assert EncodeProps([p], depth) == EncodeProp(p, depth) + EncodeProps([], depth);
    } else {
      assert kept + [p] == [kept[0]] + (kept[1..] + [p]);
      EncodeAppend(kept[1..], p, depth);
      assert kept[0] in kept;
      assert (kept + [p])[1..] == kept[1..] + [p];
    }
  }

  method EncodeValue(out: Buffer, v: Value, depth: nat)
    modifies out
    ensures out.data == old(out.data) + Encode(v, depth)
    decreases v, 1
  {
    if depth >= MAX_DEPTH {
      out.Push(TAG_NULL);
      return;
    }
    match v
    case Undefined => out.Push(TAG_UNDEFINED);
    case Hole => out.Push(TAG_UNDEFINED);
    case Null => out.Push(TAG_NULL);
    case Bool(b) =>
      out.Push(TAG_BOOL);
      out.Push(if b then 1 else 0);
    case Number(bits) =>
      out.Push(TAG_NUMBER);
      out.Extend(Le(bits, DOUBLE));
    case String(s) =>
      out.Push(TAG_STRING);
      out.WriteStr(s);
    case Array(items) => EncodeArray(out, items, depth);
    case Object(props) => EncodeObject(out, props, depth);
    case Function => out.Push(TAG_NULL);
    case BigInt => out.Push(TAG_NULL);
  }

  lemma Prefixed(start: bytes, tag: bytes, count: bytes, body: bytes)
    ensures start + tag + count + body == start + (tag + (count + body))
  {
  }

  method EncodeArray(out: Buffer, items: seq<Value>, depth: nat)
    requires depth < MAX_DEPTH
    modifies out
    ensures out.data == old(out.data) + Encode(Array(items), depth)
    decreases Array(items), 0
  {
    out.Push(TAG_ARRAY);
    out.WriteU32(|items|);
    WriteItems(out, items, depth + 1);
    Prefixed(old(out.data), [TAG_ARRAY], Le(|items|, WORD), EncodeItems(items, depth + 1));
  }

  method WriteItems(out: Buffer, items: seq<Value>, depth: nat)
    modifies out
    ensures out.data == old(out.data) + EncodeItems(items, depth)
    decreases items
  {
    ghost var whole := old(out.data) + EncodeItems(items, depth);
    var i := 0;
    assert items[0..] == items;
    while i < |items|
      invariant i <= |items|
      invariant out.data + EncodeItems(items[i..], depth) == whole
    {
      assert items[i..][1..] == items[i + 1..] && items[i..][0] == items[i];
      Shift(out.data, Encode(items[i], depth), EncodeItems(items[i + 1..], depth), whole);
      EncodeValue(out, items[i], depth);
      i := i + 1;
    }
    assert items[i..] == [] && out.data + [] == out.data;
  }

  /** The properties that get written, in order. */
  method SelectEntries(props: seq<Prop>, ghost depth: nat) returns (entries: seq<Prop>)
    ensures forall p :: p in entries ==> p in props && Kept(p)
    ensures |entries| == KeptCount(props) && EncodeProps(entries, depth) == EncodeProps(props, depth)
  {
    entries := [];
    ghost var whole := EncodeProps(props, depth);
    var i := 0;
    assert props[0..] == props && [] + whole == whole;
    while i < |props|
      invariant i <= |props|
      invariant forall p :: p in entries ==> p in props && Kept(p)
      invariant |entries| + KeptCount(props[i..]) == KeptCount(props)
      invariant EncodeProps(entries, depth) + EncodeProps(props[i..], depth) == whole
    {
      if Kept(props[i]) {
        EncodeAppend(entries, props[i], depth);
        Shift(EncodeProps(entries, depth), EncodeProp(props[i], depth), EncodeProps(props[i + 1..], depth), whole);
        entries := entries + [props[i]];
      } else {
        assert [] + EncodeProps(props[i + 1..], depth) == EncodeProps(props[i + 1..], depth);
      }
      i := i + 1;
    }
    assert props[i..] == [] && EncodeProps(entries, depth) + [] == EncodeProps(entries, depth);
  }

  method EncodeObject(out: Buffer, props: seq<Prop>, depth: nat)
    requires depth < MAX_DEPTH
    modifies out
    ensures out.data == old(out.data) + Encode(Object(props), depth)
    decreases Object(props), 0
  {
    out.Push(TAG_OBJECT);
    var entries := SelectEntries(props, depth + 1);
    out.WriteU32(|entries|);
    WriteProps(out, entries, props, depth + 1);
    Prefixed(old(out.data), [TAG_OBJECT], Le(|entries|, WORD), EncodeProps(props, depth + 1));
  }

  method WriteProps(out: Buffer, entries: seq<Prop>, ghost props: seq<Prop>, depth: nat)
    requires forall p :: p in entries ==> p in props && Kept(p)
    modifies out
    ensures out.data == old(out.data) + EncodeProps(entries, depth)
    decreases props
  {
    ghost var whole := old(out.data) + EncodeProps(entries, depth);
    var i := 0;
    assert entries[0..] == entries;
    while i < |entries|
      invariant i <= |entries|
      invariant out.data + EncodeProps(entries[i..], depth) == whole
    {
      Shift(out.data, EncodeProp(entries[i], depth), EncodeProps(entries[i + 1..], depth), whole);
      WriteProp(out, entries[i], props, depth);
      i := i + 1;
    }
    assert entries[i..] == [] && out.data + [] == out.data;
  }

  method WriteProp(out: Buffer, p: Prop, ghost props: seq<Prop>, depth: nat)
    requires p in props
    modifies out
    ensures out.data == old(out.data) + EncodeProp(p, depth)
    decreases props, 0
  {
    ghost var j :| 0 <= j < |props| && props[j] == p;
    out.WriteStr(p.key);
    EncodeValue(out, p.value, depth);
    assert old(out.data) + StrBytes(p.key) + Encode(p.value, depth) == old(out.data) + EncodeProp(p, depth);
  }

  method DecodeValue(r: Reader, depth: nat) returns (v: Option<Value>)
    requires r.pos <= |r.input|
    modifies r
    ensures r.Did(v, Decode(r.input, old(r.pos), depth))
    decreases MAX_DEPTH - depth, 1
  {
    if depth >= MAX_DEPTH {
      return None;
    }
    var tag := r.Byte();
    if tag.None? {
      return None;
    }
    assert Decode(r.input, old(r.pos), depth) == DecodeBody(r.input, r.pos, depth, tag.value);
    if tag.value == TAG_UNDEFINED {
      return Some(Undefined);
    } else if tag.value == TAG_NULL {
      return Some(Null);
    } else if tag.value == TAG_BOOL {
      var b := r.Byte();
      return if b.None? then None else Some(Bool(b.value != 0));
    } else if tag.value == TAG_NUMBER {
      var n := r.Unsigned(DOUBLE);
      return if n.None? then None else Some(Number(n.value));
    } else if tag.value == TAG_STRING {
      var s := r.Str();
      return if s.None? then None else Some(String(s.value));
    } else if tag.value == TAG_ARRAY {
      v := DecodeArray(r, depth);
    } else if tag.value == TAG_OBJECT {
      v := DecodeObject(r, depth);
    } else {
      return None;
    }
  }

  method DecodeArray(r: Reader, depth: nat) returns (v: Option<Value>)
    requires depth < MAX_DEPTH && r.pos <= |r.input|
    modifies r
    ensures r.Did(v, DecodeBody(r.input, old(r.pos), depth, TAG_ARRAY))
    decreases MAX_DEPTH - depth, 0
  {
    var n := r.Unsigned(WORD);
    if n.None? || n.value > |r.input| {
      return None;
    }
    ghost var whole := DecodeItems(r.input, r.pos, n.value, depth + 1);
    var items, i := [], 0;
    assert forall rest: seq<Value> :: items + rest == rest;
    while i < n.value
      invariant i <= n.value && r.pos <= |r.input|
      invariant whole == (match DecodeItems(r.input, r.pos, n.value - i, depth + 1)
                          case Fail => Fail case Ok(rest, z) => Ok(items + rest, z))
    {
      var item := DecodeValue(r, depth + 1);
      if item.None? {
        return None;
      }
      assert forall rest: seq<Value> :: items + ([item.value] + rest) == items + [item.value] + rest;
      items := items + [item.value];
      i := i + 1;
    }
    assert items + [] == items;
    return Some(Array(items));
  }

  method DecodeObject(r: Reader, depth: nat) returns (v: Option<Value>)
    requires depth < MAX_DEPTH && r.pos <= |r.input|
    modifies r
    ensures r.Did(v, DecodeBody(r.input, old(r.pos), depth, TAG_OBJECT))
    decreases MAX_DEPTH - depth, 0
  {
    var n := r.Unsigned(WORD);
    if n.None? || n.value > |r.input| {
      return None;
    }
    var props := DecodeEntries(r, n.value, depth + 1);
    return if props.None? then None else Some(Object(props.value));
  }

  /** The property loop: `n` entries inserted into a new map. */
  method DecodeEntries(r: Reader, n: nat, depth: nat) returns (props: Option<seq<Prop>>)
    requires r.pos <= |r.input|
    modifies r
    ensures match DecodeProps(r.input, old(r.pos), n, depth)
            case Fail => props == None
            case Ok(ps, z) => props == Some(FromEntries(ps)) && r.pos == z
    decreases MAX_DEPTH - depth, 4
  {
    ghost var entries: seq<Prop>, ps: seq<nat> := [], [r.pos];
    var acc, ok := [], true;
    for i := 0 to n
      invariant r.pos <= |r.input| && |entries| == i && acc == FromEntries(entries)
      invariant Chain(PropReader(depth), r.input, ps, entries) && ps[0] == old(r.pos) && ps[i] == r.pos
    {
      ok, acc, entries, ps := DecodeNext(r, acc, depth, entries, ps);
      if !ok {
        PropsAreMany(r.input, ps[0], n, depth);
        ChainIsMany(PropReader(depth), r.input, ps, entries, n);
        return None;
      }
    }
    PropsAreMany(r.input, ps[0], n, depth);
    ChainIsMany(PropReader(depth), r.input, ps, entries, n);
    return Some(acc);
  }

  ghost function PropReader(depth: nat): (bytes, nat) -> Parsed<Prop> { (bs: bytes, p: nat) => DecodeProp(bs, p, depth) }

  lemma {:induction false} PropsAreMany(bs: bytes, pos: nat, n: nat, depth: nat)
    requires pos <= |bs|
    ensures DecodeProps(bs, pos, n, depth) == Many(PropReader(depth), bs, pos, n)
    decreases n
  {
    if n > 0 && DecodeProp(bs, pos, depth).Ok? { PropsAreMany(bs, DecodeProp(bs, pos, depth).pos, n - 1, depth); }
  }

  /** One round of the loop. */
  method DecodeNext(r: Reader, acc: seq<Prop>, depth: nat, ghost entries: seq<Prop>, ghost ps: seq<nat>)
    returns (ok: bool, more: seq<Prop>, ghost entries': seq<Prop>, ghost ps': seq<nat>)
    requires r.pos <= |r.input| && acc == FromEntries(entries)
    requires Chain(PropReader(depth), r.input, ps, entries) && ps[|entries|] == r.pos
    modifies r
    ensures Chain(PropReader(depth), r.input, ps', entries') && ps'[0] == ps[0]
    ensures if ok then r.pos <= |r.input| && |entries'| == |entries| + 1 && ps'[|entries'|] == r.pos && more == FromEntries(entries')
            else |entries'| == |entries| && PropReader(depth)(r.input, ps'[|entries'|]).Fail?
    decreases MAX_DEPTH - depth, 3
  {
    var p := DecodeEntry(r, depth);
    if p.None? {
      return false, acc, entries, ps;
    }
    ChainGrows(PropReader(depth), r.input, ps, entries);
    assert (entries + [p.value])[..|entries|] == entries;
    return true, Insert(acc, p.value.key, p.value.value), entries + [p.value], ps + [r.pos];
  }

  method DecodeEntry(r: Reader, depth: nat) returns (p: Option<Prop>)
    requires r.pos <= |r.input|
    modifies r
    ensures r.Did(p, DecodeProp(r.input, old(r.pos), depth))
    decreases MAX_DEPTH - depth, 2
  {
    var k := r.Str();
    if k.None? {
      return None;
    }
    var value := DecodeValue(r, depth);
    if value.None? {
      return None;
    }
    return Some(Prop(k.value, value.value));
  }
}
