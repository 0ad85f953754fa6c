/**
 Database snapshots (crates/cv_browser/src/idb_persist.rs lines 382-505), single-value blobs
 (lines 238-266) and named caches (crates/cv_browser/src/opfs.rs lines 393-448).
 */
module Snapshots {
  import opened Common
  import opened Wire
  import opened ValueCodec

  const DISK_VERSION: nat := 1
  const DB_MAGIC: bytes := [0x54, 0x42, 0x49, 0x44, 0x42]       // TBIDB
  const BLOB_MAGIC: bytes := [0x54, 0x42, 0x56, 0x41, 0x4C]     // TBVAL
  const CACHE_MAGIC: bytes := [0x54, 0x42, 0x43, 0x41, 0x43]    // TBCAC

  datatype Row = Row(key: Value, value: Value)

  datatype Store = Store(name: bytes, keyPath: Option<bytes>, autoIncrement: bool, autoKey: nat, rows: seq<Row>)

  datatype Db = Db(name: bytes, version: nat, stores: seq<Store>)

  /** A cached response under its address. */
  datatype Entry = Entry(url: bytes, value: Value)

  // ----- Encoding -----

  function Header(magic: bytes): (r: bytes)
    ensures |r| == |magic| + WORD
  {
    magic + Le(DISK_VERSION, WORD)
  }

  function RowBytes(r: Row): (b: bytes)
    ensures |b| >= 1
  {
    Encode(r.key, 0) + Encode(r.value, 0)
  }

  function KeyPathBytes(kp: Option<bytes>): bytes {
    if kp.None? then [0] + [] else [1] + StrBytes(kp.value)
  }

  function StoreNameBytes(s: Store): (r: bytes)
    ensures |r| >= 1
  {
    StrBytes(s.name) + KeyPathBytes(s.keyPath)
  }

  function StoreCountersBytes(s: Store): bytes {
    [if s.autoIncrement then 1 else 0] + (Le(s.autoKey, DOUBLE) + Le(|s.rows|, WORD))
  }

  /** Everything of a store up to its row count. */
  function StoreHeadBytes(s: Store): (r: bytes)
    ensures |r| >= 1
  {
    StoreNameBytes(s) + StoreCountersBytes(s)
  }

  function StoreBytes(s: Store): (r: bytes)
    ensures |r| >= 1
  {
    StoreHeadBytes(s) + Concat(RowBytes, s.rows)
  }

  function DbBytes(d: Db): bytes {
    Header(DB_MAGIC) + (StrBytes(d.name) + (Le(d.version, WORD) + (Le(|d.stores|, WORD) + Concat(StoreBytes, d.stores))))
  }

  function BlobBytes(v: Value): bytes { Header(BLOB_MAGIC) + Encode(v, 0) }

  function EntryBytes(e: Entry): (r: bytes)
    ensures |r| >= 1
  {
    StrBytes(e.url) + (Le(|BlobBytes(e.value)|, WORD) + BlobBytes(e.value))
  }

  function CacheBytes(es: seq<Entry>): bytes {
    Header(CACHE_MAGIC) + (Le(|es|, WORD) + Concat(EntryBytes, es))
  }

  // ----- Decoding -----

  /** Magic and version; the value read is the unit. */
  function ReadHeader(bs: bytes, magic: bytes): (r: Parsed<()>)
    ensures r.Ok? ==> r.pos == |magic| + WORD <= |bs|
  {
    var (m, p) :- Take(bs, 0, |magic|);
    if m != magic then Fail
    else
      var (v, q) :- ReadLe(bs, p, WORD);
      if v != DISK_VERSION then Fail else Ok((), q)
  }

  function ReadRow(bs: bytes, pos: nat): (r: Parsed<Row>)
    ensures r.Ok? ==> pos <= r.pos <= |bs|
  {
    var (k, p) :- Decode(bs, pos, 0);
    var (v, q) :- Decode(bs, p, 0);
    Ok(Row(k, v), q)
  }

  function ReadKeyPath(bs: bytes, pos: nat): (r: Parsed<Option<bytes>>)
    ensures r.Ok? ==> pos <= r.pos <= |bs|
  {
    var (has, p) :- ReadByte(bs, pos);
    if has == 0 then Ok(None, p)
    else if has == 1 then
      var (s, q) :- ReadStr(bs, p);
      Ok(Some(s), q)
    else Fail
  }

  function ReadStoreName(bs: bytes, pos: nat): (r: Parsed<(bytes, Option<bytes>)>)
    ensures r.Ok? ==> pos <= r.pos <= |bs|
  {
    var (name, p) :- ReadStr(bs, pos);
    var (kp, q) :- ReadKeyPath(bs, p);
    Ok((name, kp), q)
  }

  function ReadStoreCounters(bs: bytes, pos: nat): (r: Parsed<(bool, nat, nat)>)
    ensures r.Ok? ==> pos <= r.pos <= |bs|
  {
    var (auto, p) :- ReadByte(bs, pos);
    var (key, q) :- ReadLe(bs, p, DOUBLE);
    var (n, z) :- ReadLe(bs, q, WORD);
    Ok((auto != 0, key, n), z)
  }

  /** A store without its rows, and the row count. */
  function ReadStoreHead(bs: bytes, pos: nat): (r: Parsed<(Store, nat)>)
    ensures r.Ok? ==> pos <= r.pos <= |bs|
  {
    var (a, p) :- ReadStoreName(bs, pos);
    var (b, q) :- ReadStoreCounters(bs, p);
    Ok((Store(a.0, a.1, b.0, b.1, []), b.2), q)
  }

  function ReadStore(bs: bytes, pos: nat): Parsed<Store> {
    var (head, p) :- ReadStoreHead(bs, pos);
    if head.1 > |bs| then Fail
    else
      var (rows, q) :- Many(ReadRow, bs, p, head.1);
      Ok(head.0.(rows := rows), q)
  }

  /** `from_bytes`, with the position after the structured prefix. */
  function ReadDb(bs: bytes): Parsed<Db> {
    var (_, p0) :- ReadHeader(bs, DB_MAGIC);
    var (name, p1) :- ReadStr(bs, p0);
    var (version, p2) :- ReadLe(bs, p1, WORD);
    var (n, p3) :- ReadLe(bs, p2, WORD);
    if n > |bs| then Fail
    else
      var (stores, p4) :- Many(ReadStore, bs, p3, n);
      Ok(Db(name, version, stores), p4)
  }

  function FromBytes(bs: bytes): Option<Db> {
    match ReadDb(bs) case Fail => None case Ok(d, _) => Some(d)
  }

  function ReadBlob(bs: bytes): (r: Parsed<Value>)
    ensures r.Ok? ==> r.pos <= |bs|
  {
    var (_, p) :- ReadHeader(bs, BLOB_MAGIC);
    Decode(bs, p, 0)
  }

  function ReadEntry(bs: bytes, pos: nat): (r: Parsed<Entry>)
    ensures r.Ok? ==> pos <= r.pos <= |bs|
  {
    var (url, p) :- ReadStr(bs, pos);
    var (n, q) :- ReadLe(bs, p, WORD);
    var (blob, z) :- Take(bs, q, n);
    match ReadBlob(blob)
    case Fail => Fail
    case Ok(v, _) => Ok(Entry(url, v), z)
  }

  function ReadCache(bs: bytes): Parsed<seq<Entry>> {
    var (_, p) :- ReadHeader(bs, CACHE_MAGIC);
    var (n, q) :- ReadLe(bs, p, WORD);
    if n > |bs| then Fail else Many(ReadEntry, bs, q, n)
  }

  /** `decode_cache`: anything malformed is an empty cache. */
  function DecodeCache(bs: bytes): seq<Entry> {
    match ReadCache(bs) case Fail => [] case Ok(es, _) => es
  }

  /** Reading a store and a database, given what their heads read as. */
  lemma StoreIs(bs: bytes, pos: nat, s: Store, n: nat, p: nat)
    requires ReadStoreHead(bs, pos) == Ok((s, n), p) && n <= |bs|
    ensures ReadStore(bs, pos) == match Many(ReadRow, bs, p, n) case Fail => Fail case Ok(rows, q) => Ok(s.(rows := rows), q)
  {
  }

  lemma DbIs(bs: bytes, name: bytes, p: nat, version: nat, n: nat)
    requires ReadHeader(bs, DB_MAGIC).Ok? && ReadStr(bs, |DB_MAGIC| + WORD) == Ok(name, p)
    requires ReadLe(bs, p, WORD) == Ok(version, p + WORD) && ReadLe(bs, p + WORD, WORD) == Ok(n, p + WORD + WORD) && n <= |bs|
    ensures ReadDb(bs) ==
            match Many(ReadStore, bs, p + WORD + WORD, n) case Fail => Fail case Ok(stores, q) => Ok(Db(name, version, stores), q)
  {
  }

  // ----- What survives -----

  function NormalRow(r: Row): Row { Row(Normal(r.key), Normal(r.value)) }

  function NormalStore(s: Store): Store { s.(rows := Mapped(NormalRow, s.rows)) }

  function NormalDb(d: Db): Db { d.(stores := Mapped(NormalStore, d.stores)) }

  function NormalEntry(e: Entry): Entry { Entry(e.url, Normal(e.value)) }

  predicate ShallowRow(r: Row) { Shallow(r.key, 0) && Shallow(r.value, 0) }

  predicate ShallowStore(s: Store) { Every(ShallowRow, s.rows) }

  predicate ShallowDb(d: Db) { Every(ShallowStore, d.stores) }

  predicate ShallowEntry(e: Entry) { Shallow(e.value, 0) }

  // What the source's types guarantee.

  predicate TypedRow(r: Row) { Typed(r.key) && Typed(r.value) }

  predicate TypedStore(s: Store) {
    && ValidUtf8(s.name) && (s.keyPath.Some? ==> ValidUtf8(s.keyPath.value))
    && s.autoKey < 0x1_0000_0000_0000_0000 && Every(TypedRow, s.rows)
  }

  predicate TypedDb(d: Db) { ValidUtf8(d.name) && d.version < 0x1_0000_0000 && Every(TypedStore, d.stores) }

  predicate TypedEntry(e: Entry) { ValidUtf8(e.url) && Typed(e.value) }

  // Every length and count that gets written has 32 bits.

  predicate ShortText(s: bytes) { |s| < MAX_LENGTH }

  predicate WritableRow(r: Row) { Writable(r.key, 0) && Writable(r.value, 0) }

  predicate WritableStore(s: Store) {
    && ShortText(s.name) && (s.keyPath.Some? ==> ShortText(s.keyPath.value))
    && |s.rows| < MAX_LENGTH && Every(WritableRow, s.rows)
  }

  predicate WritableDb(d: Db) { ShortText(d.name) && |d.stores| < MAX_LENGTH && Every(WritableStore, d.stores) }

  predicate WritableEntry(e: Entry) { ShortText(e.url) && Writable(e.value, 0) && |BlobBytes(e.value)| < MAX_LENGTH }

  predicate WritableCache(es: seq<Entry>) { |es| < MAX_LENGTH && Every(WritableEntry, es) }

  // Both, for what follows.

  predicate StorableText(s: bytes) { ValidUtf8(s) && ShortText(s) }

  predicate StorableRow(r: Row) { TypedRow(r) && WritableRow(r) }

  predicate StorableHead(s: Store) {
    && StorableText(s.name) && (s.keyPath.Some? ==> StorableText(s.keyPath.value))
    && s.autoKey < 0x1_0000_0000_0000_0000 && |s.rows| < MAX_LENGTH
  }

  predicate StorableStore(s: Store) { TypedStore(s) && WritableStore(s) }

  predicate StorableEntry(e: Entry) { TypedEntry(e) && WritableEntry(e) }

  /** Rows, stores or entries that come back: no length and no depth is in the way. */
  predicate GoodRow(r: Row) { ShallowRow(r) && WritableRow(r) }

  predicate GoodStore(s: Store) { ShallowStore(s) && WritableStore(s) }

  predicate GoodEntry(e: Entry) { ShallowEntry(e) && WritableEntry(e) }

  lemma EveryBoth<U>(a: U -> bool, b: U -> bool, c: U -> bool, us: seq<U>)
    requires forall u :: u in us ==> (c(u) <==> a(u) && b(u))
    ensures Every(c, us) <==> Every(a, us) && Every(b, us)
  {
    assert forall i :: 0 <= i < |us| ==> us[i] in us;
  }

  // ----- Round trips -----

  lemma HeaderAt(bs: bytes, magic: bytes, body: bytes)
    requires At(bs, 0, Header(magic) + body)
    ensures ReadHeader(bs, magic) == Ok((), |magic| + WORD) && At(bs, |magic| + WORD, body)
  {
    AtSplit(bs, 0, Header(magic), body);
    AtSplit(bs, 0, magic, Le(DISK_VERSION, WORD));
    TakeAt(bs, 0, magic);
    assert DISK_VERSION < Pow256(WORD) by { Pow256Values(); }
    ReadLeAt(bs, |magic|, DISK_VERSION, WORD);
  }

  lemma RowAt(bs: bytes, pos: nat, r: Row)
    requires StorableRow(r) && At(bs, pos, RowBytes(r))
    ensures ReadRow(bs, pos) == if ShallowRow(r) then Ok(NormalRow(r), pos + |RowBytes(r)|) else Fail
  {
    var p := pos + |Encode(r.key, 0)|;
    assert At(bs, pos, Encode(r.key, 0)) && At(bs, p, Encode(r.value, 0)) by { AtSplit(bs, pos, Encode(r.key, 0), Encode(r.value, 0)); }
    assert Decode(bs, pos, 0) == (if Shallow(r.key, 0) then Ok(Normal(r.key), p) else Fail) by { ReadBack(bs, pos, r.key, 0); }
    assert Decode(bs, p, 0) == (if Shallow(r.value, 0) then Ok(Normal(r.value), p + |Encode(r.value, 0)|) else Fail) by {
      ReadBack(bs, p, r.value, 0);
    }
  }

  lemma RowReadsBack(bs: bytes, r: Row)
    requires StorableRow(r)
    ensures ReadsBack(ReadRow, RowBytes, NormalRow, ShallowRow, bs, r)
  {
    forall p: nat | At(bs, p, RowBytes(r))
      ensures ReadRow(bs, p) == if ShallowRow(r) then Ok(NormalRow(r), p + |RowBytes(r)|) else Fail
    {
      RowAt(bs, p, r);
    }
  }

  lemma RowsAt(bs: bytes, pos: nat, rs: seq<Row>)
    requires Every(StorableRow, rs) && At(bs, pos, Concat(RowBytes, rs))
    ensures |rs| <= |bs|
    ensures Many(ReadRow, bs, pos, |rs|) ==
            if Every(ShallowRow, rs) then Ok(Mapped(NormalRow, rs), pos + |Concat(RowBytes, rs)|) else Fail
  {
    ConcatLength(RowBytes, rs);
    forall i | 0 <= i < |rs| ensures ReadsBack(ReadRow, RowBytes, NormalRow, ShallowRow, bs, rs[i]) {
      RowReadsBack(bs, rs[i]);
    }
    ManyAt(ReadRow, RowBytes, NormalRow, ShallowRow, bs, pos, rs);
  }

  lemma StrAt(bs: bytes, pos: nat, s: bytes, tail: bytes)
    requires At(bs, pos, StrBytes(s) + tail) && StorableText(s)
    ensures At(bs, pos + |StrBytes(s)|, tail) && ReadStr(bs, pos) == Ok(s, pos + |StrBytes(s)|)
  {
    AtSplit(bs, pos, StrBytes(s), tail);
    ShortStrAt(bs, pos, s);
  }

  lemma NumberAt(bs: bytes, pos: nat, v: nat, n: nat, tail: bytes)
    requires At(bs, pos, Le(v, n) + tail)
    requires (n == WORD && v < MAX_LENGTH) || (n == DOUBLE && v < 0x1_0000_0000_0000_0000)
    ensures At(bs, pos + n, tail) && ReadLe(bs, pos, n) == Ok(v, pos + n)
  {
    assert v < Pow256(n) by { Pow256Values(); }
    AtSplit(bs, pos, Le(v, n), tail);
    ReadLeAt(bs, pos, v, n);
  }

  lemma KeyPathAt(bs: bytes, pos: nat, kp: Option<bytes>, tail: bytes)
    requires At(bs, pos, KeyPathBytes(kp) + tail) && (kp.Some? ==> StorableText(kp.value))
    ensures At(bs, pos + |KeyPathBytes(kp)|, tail) && ReadKeyPath(bs, pos) == Ok(kp, pos + |KeyPathBytes(kp)|)
  {
    AtSplit(bs, pos, KeyPathBytes(kp), tail);
    var rest := if kp.None? then [] else StrBytes(kp.value);
    AtSplit(bs, pos, [if kp.None? then 0 else 1], rest);
    ReadByteAt(bs, pos, if kp.None? then 0 else 1);
    if kp.Some? {
      ShortStrAt(bs, pos + 1, kp.value);
    }
  }

  lemma FlagAt(bs: bytes, pos: nat, b: bool, tail: bytes)
    requires At(bs, pos, [if b then 1 else 0] + tail)
    ensures At(bs, pos + 1, tail) && ReadByte(bs, pos) == Ok(if b then 1 else 0, pos + 1)
  {
    AtSplit(bs, pos, [if b then 1 else 0], tail);
    ReadByteAt(bs, pos, if b then 1 else 0);
  }

  lemma StoreNameAt(bs: bytes, pos: nat, s: Store)
    requires StorableHead(s) && At(bs, pos, StoreNameBytes(s))
    ensures ReadStoreName(bs, pos) == Ok((s.name, s.keyPath), pos + |StoreNameBytes(s)|)
  {
    StrAt(bs, pos, s.name, KeyPathBytes(s.keyPath));
    assert KeyPathBytes(s.keyPath) + [] == KeyPathBytes(s.keyPath);
    KeyPathAt(bs, pos + |StrBytes(s.name)|, s.keyPath, []);
  }

  lemma StoreCountersAt(bs: bytes, pos: nat, s: Store)
    requires StorableHead(s) && At(bs, pos, StoreCountersBytes(s))
    ensures ReadStoreCounters(bs, pos) == Ok((s.autoIncrement, s.autoKey, |s.rows|), pos + |StoreCountersBytes(s)|)
  {
    var rest := Le(|s.rows|, WORD);
    FlagAt(bs, pos, s.autoIncrement, Le(s.autoKey, DOUBLE) + rest);
    NumberAt(bs, pos + 1, s.autoKey, DOUBLE, rest);
    assert rest + [] == rest;
    NumberAt(bs, pos + 1 + DOUBLE, |s.rows|, WORD, []);
  }

  lemma StoreHeadAt(bs: bytes, pos: nat, s: Store)
    requires StorableHead(s) && At(bs, pos, StoreHeadBytes(s))
    ensures ReadStoreHead(bs, pos) == Ok((s.(rows := []), |s.rows|), pos + |StoreHeadBytes(s)|)
  {
    var p := pos + |StoreNameBytes(s)|;
    AtSplit(bs, pos, StoreNameBytes(s), StoreCountersBytes(s));
    assert ReadStoreName(bs, pos) == Ok((s.name, s.keyPath), p) by { StoreNameAt(bs, pos, s); }
    StoreCountersAt(bs, p, s);
  }

  lemma StoreAt(bs: bytes, pos: nat, s: Store)
    requires StorableStore(s) && At(bs, pos, StoreBytes(s))
    ensures ReadStore(bs, pos) == if ShallowStore(s) then Ok(NormalStore(s), pos + |StoreBytes(s)|) else Fail
  {
    var p, rows := pos + |StoreHeadBytes(s)|, Concat(RowBytes, s.rows);
    assert At(bs, pos, StoreHeadBytes(s)) && At(bs, p, rows) by { AtSplit(bs, pos, StoreHeadBytes(s), rows); }
    assert ReadStoreHead(bs, pos) == Ok((s.(rows := []), |s.rows|), p) by { StoreHeadAt(bs, pos, s); }
    EveryBoth(TypedRow, WritableRow, StorableRow, s.rows);
    RowsAt(bs, p, s.rows);
    StoreIs(bs, pos, s.(rows := []), |s.rows|, p);
  }

  lemma StoreReadsBack(bs: bytes, s: Store)
    requires StorableStore(s)
    ensures ReadsBack(ReadStore, StoreBytes, NormalStore, ShallowStore, bs, s)
  {
    forall p: nat | At(bs, p, StoreBytes(s))
      ensures ReadStore(bs, p) == if ShallowStore(s) then Ok(NormalStore(s), p + |StoreBytes(s)|) else Fail
    {
      StoreAt(bs, p, s);
    }
  }

  lemma StoresAt(bs: bytes, pos: nat, ss: seq<Store>)
    requires Every(StorableStore, ss) && At(bs, pos, Concat(StoreBytes, ss))
    ensures |ss| <= |bs|
    ensures Many(ReadStore, bs, pos, |ss|) ==
            if Every(ShallowStore, ss) then Ok(Mapped(NormalStore, ss), pos + |Concat(StoreBytes, ss)|) else Fail
  {
    ConcatLength(StoreBytes, ss);
    forall i | 0 <= i < |ss| ensures ReadsBack(ReadStore, StoreBytes, NormalStore, ShallowStore, bs, ss[i]) {
      StoreReadsBack(bs, ss[i]);
    }
    ManyAt(ReadStore, StoreBytes, NormalStore, ShallowStore, bs, pos, ss);
  }

  lemma DbAt(bs: bytes, d: Db)
    requires TypedDb(d) && WritableDb(d) && At(bs, 0, DbBytes(d))
    ensures ReadDb(bs) == if ShallowDb(d) then Ok(NormalDb(d), |DbBytes(d)|) else Fail
  {
    var b3 := Concat(StoreBytes, d.stores);
    var b2 := Le(|d.stores|, WORD) + b3;
    var b1 := Le(d.version, WORD) + b2;
    var p0 := |DB_MAGIC| + WORD;
    var p1 := p0 + |StrBytes(d.name)|;
    HeaderAt(bs, DB_MAGIC, StrBytes(d.name) + b1);
    StrAt(bs, p0, d.name, b1);
    NumberAt(bs, p1, d.version, WORD, b2);
    NumberAt(bs, p1 + WORD, |d.stores|, WORD, b3);
    EveryBoth(TypedStore, WritableStore, StorableStore, d.stores);
    StoresAt(bs, p1 + WORD + WORD, d.stores);
    DbIs(bs, d.name, p1, d.version, |d.stores|);
  }

  /** A value blob is read back, whatever follows, if and only if the value is shallow and writable. */
  lemma BlobAt(bs: bytes, v: Value)
    requires Typed(v) && At(bs, 0, BlobBytes(v))
    ensures ReadBlob(bs) == Ok(Normal(v), |BlobBytes(v)|) <==> Shallow(v, 0) && Writable(v, 0)
    ensures Writable(v, 0) && !Shallow(v, 0) ==> ReadBlob(bs) == Fail
  {
    HeaderAt(bs, BLOB_MAGIC, Encode(v, 0));
    RoundTrip(bs, |BLOB_MAGIC| + WORD, v, 0);
  }

  lemma EntryAt(bs: bytes, pos: nat, e: Entry)
    requires StorableEntry(e) && At(bs, pos, EntryBytes(e))
    ensures ReadEntry(bs, pos) == if ShallowEntry(e) then Ok(NormalEntry(e), pos + |EntryBytes(e)|) else Fail
  {
    var blob := BlobBytes(e.value);
    var p := pos + |StrBytes(e.url)|;
    StrAt(bs, pos, e.url, Le(|blob|, WORD) + blob);
    NumberAt(bs, p, |blob|, WORD, blob);
    TakeAt(bs, p + WORD, blob);
    assert At(blob, 0, blob);
    BlobAt(blob, e.value);
  }

  lemma EntryReadsBack(bs: bytes, e: Entry)
    requires StorableEntry(e)
    ensures ReadsBack(ReadEntry, EntryBytes, NormalEntry, ShallowEntry, bs, e)
  {
    forall p: nat | At(bs, p, EntryBytes(e))
      ensures ReadEntry(bs, p) == if ShallowEntry(e) then Ok(NormalEntry(e), p + |EntryBytes(e)|) else Fail
    {
      EntryAt(bs, p, e);
    }
  }

  lemma CacheAt(bs: bytes, es: seq<Entry>)
    requires Every(TypedEntry, es) && WritableCache(es) && At(bs, 0, CacheBytes(es))
    ensures ReadCache(bs) == if Every(ShallowEntry, es) then Ok(Mapped(NormalEntry, es), |CacheBytes(es)|) else Fail
  {
    var p, body := |CACHE_MAGIC| + WORD, Concat(EntryBytes, es);
    HeaderAt(bs, CACHE_MAGIC, Le(|es|, WORD) + body);
    NumberAt(bs, p, |es|, WORD, body);
    ConcatLength(EntryBytes, es);
    EveryBoth(TypedEntry, WritableEntry, StorableEntry, es);
    forall i | 0 <= i < |es| ensures ReadsBack(ReadEntry, EntryBytes, NormalEntry, ShallowEntry, bs, es[i]) {
      EntryReadsBack(bs, es[i]);
    }
    ManyAt(ReadEntry, EntryBytes, NormalEntry, ShallowEntry, bs, p + WORD, es);
  }

  // ----- What reads back was written in full -----

  lemma RowConfirms(bs: bytes, r: Row)
    requires TypedRow(r)
    ensures Confirms(ReadRow, RowBytes, NormalRow, GoodRow, bs, r)
  {
    forall p: nat | At(bs, p, RowBytes(r)) && ReadRow(bs, p).Ok? && ReadRow(bs, p).value == NormalRow(r)
      ensures GoodRow(r) && ReadRow(bs, p).pos == p + |RowBytes(r)|
    {
      OnlyIf(bs, p, r.key, 0);
      OnlyIf(bs, Decode(bs, p, 0).pos, r.value, 0);
      RowAt(bs, p, r);
    }
  }

  lemma RowsConfirm(bs: bytes, pos: nat, rs: seq<Row>)
    requires Every(TypedRow, rs) && At(bs, pos, Concat(RowBytes, rs))
    requires Many(ReadRow, bs, pos, |rs|).Ok? && Many(ReadRow, bs, pos, |rs|).value == Mapped(NormalRow, rs)
    ensures Every(ShallowRow, rs) && Every(WritableRow, rs)
  {
    forall i | 0 <= i < |rs| ensures Confirms(ReadRow, RowBytes, NormalRow, GoodRow, bs, rs[i]) { RowConfirms(bs, rs[i]); }
    ManyConfirms(ReadRow, RowBytes, NormalRow, GoodRow, bs, pos, rs);
    EveryBoth(ShallowRow, WritableRow, GoodRow, rs);
  }

  lemma StoreNameIsShort(bs: bytes, pos: nat)
    requires ReadStoreName(bs, pos).Ok?
    ensures var r := ReadStoreName(bs, pos).value; ShortText(r.0) && (r.1.Some? ==> ShortText(r.1.value))
  {
    StrIsShort(bs, pos);
    var p := ReadStr(bs, pos).pos;
    if ReadByte(bs, p).value == 1 { StrIsShort(bs, p + 1); }
  }

  lemma StoreCountersAreShort(bs: bytes, pos: nat)
    requires ReadStoreCounters(bs, pos).Ok?
    ensures ReadStoreCounters(bs, pos).value.2 < MAX_LENGTH
  {
    WordIsShort(bs, pos + 1 + DOUBLE);
  }

  lemma StoreHeadIsShort(bs: bytes, pos: nat)
    requires ReadStoreHead(bs, pos).Ok?
    ensures var (s, n) := ReadStoreHead(bs, pos).value;
            ShortText(s.name) && (s.keyPath.Some? ==> ShortText(s.keyPath.value)) && n < MAX_LENGTH
  {
    StoreNameIsShort(bs, pos);
    StoreCountersAreShort(bs, ReadStoreName(bs, pos).pos);
  }

  /** The parts of a store that was read. */
  lemma StoreParts(bs: bytes, pos: nat)
    requires ReadStore(bs, pos).Ok?
    ensures ReadStoreHead(bs, pos).Ok?
    ensures var head := ReadStoreHead(bs, pos);
            var rows := Many(ReadRow, bs, head.pos, head.value.1);
            && rows.Ok? && |rows.value| == head.value.1
            && ReadStore(bs, pos) == Ok(head.value.0.(rows := rows.value), rows.pos)
  {
    var head := ReadStoreHead(bs, pos);
    ManyLength(ReadRow, bs, head.pos, head.value.1);
  }

  /** The names and counts of a store that reads back have 32 bits. */
  lemma StoreHeadConfirms(bs: bytes, pos: nat, s: Store)
    requires ReadStore(bs, pos).Ok? && ReadStore(bs, pos).value == NormalStore(s)
    ensures ShortText(s.name) && (s.keyPath.Some? ==> ShortText(s.keyPath.value)) && |s.rows| < MAX_LENGTH
  {
    StoreParts(bs, pos);
    StoreHeadIsShort(bs, pos);
  }

  lemma StoreRowsConfirm(bs: bytes, pos: nat, s: Store)
    requires StorableHead(s) && Every(TypedRow, s.rows) && At(bs, pos, StoreBytes(s))
    requires ReadStore(bs, pos).Ok? && ReadStore(bs, pos).value == NormalStore(s)
    ensures Every(ShallowRow, s.rows) && Every(WritableRow, s.rows)
  {
    var p, rows := pos + |StoreHeadBytes(s)|, Concat(RowBytes, s.rows);
    assert At(bs, pos, StoreHeadBytes(s)) && At(bs, p, rows) by { AtSplit(bs, pos, StoreHeadBytes(s), rows); }
    assert ReadStoreHead(bs, pos) == Ok((s.(rows := []), |s.rows|), p) by { StoreHeadAt(bs, pos, s); }
    StoreParts(bs, pos);
    RowsConfirm(bs, p, s.rows);
  }

  lemma StoreConfirmsAt(bs: bytes, pos: nat, s: Store)
    requires TypedStore(s) && At(bs, pos, StoreBytes(s)) && ReadStore(bs, pos).Ok? && ReadStore(bs, pos).value == NormalStore(s)
    ensures GoodStore(s) && ReadStore(bs, pos).pos == pos + |StoreBytes(s)|
  {
    StoreHeadConfirms(bs, pos, s);
    StoreRowsConfirm(bs, pos, s);
    StoreAt(bs, pos, s);
  }

  lemma StoreConfirms(bs: bytes, s: Store)
    requires TypedStore(s)
    ensures Confirms(ReadStore, StoreBytes, NormalStore, GoodStore, bs, s)
  {
    forall p: nat | At(bs, p, StoreBytes(s)) && ReadStore(bs, p).Ok? && ReadStore(bs, p).value == NormalStore(s)
      ensures GoodStore(s) && ReadStore(bs, p).pos == p + |StoreBytes(s)|
    {
      StoreConfirmsAt(bs, p, s);
    }
  }

  lemma StoresConfirm(bs: bytes, pos: nat, ss: seq<Store>)
    requires Every(TypedStore, ss) && At(bs, pos, Concat(StoreBytes, ss))
    requires Many(ReadStore, bs, pos, |ss|).Ok? && Many(ReadStore, bs, pos, |ss|).value == Mapped(NormalStore, ss)
    ensures Every(ShallowStore, ss) && Every(WritableStore, ss)
  {
    forall i | 0 <= i < |ss| ensures Confirms(ReadStore, StoreBytes, NormalStore, GoodStore, bs, ss[i]) { StoreConfirms(bs, ss[i]); }
    ManyConfirms(ReadStore, StoreBytes, NormalStore, GoodStore, bs, pos, ss);
    EveryBoth(ShallowStore, WritableStore, GoodStore, ss);
  }

  /** The parts of a database that was read. */
  lemma DbParts(bs: bytes, p0: nat, p1: nat)
    requires ReadDb(bs).Ok? && p0 == |DB_MAGIC| + WORD && p1 == ReadStr(bs, p0).pos
    ensures ReadStr(bs, p0).Ok? && ShortText(ReadDb(bs).value.name) && ReadStr(bs, p0).value == ReadDb(bs).value.name
    ensures var d := ReadDb(bs).value;
            && |d.stores| < MAX_LENGTH && ReadLe(bs, p1 + WORD, WORD) == Ok(|d.stores|, p1 + WORD + WORD)
            && Many(ReadStore, bs, p1 + WORD + WORD, |d.stores|).Ok?
            && Many(ReadStore, bs, p1 + WORD + WORD, |d.stores|).value == d.stores
  {
    StrIsShort(bs, p0);
    WordIsShort(bs, p1 + WORD);
    ManyLength(ReadStore, bs, p1 + WORD + WORD, ReadLe(bs, p1 + WORD, WORD).value);
  }

  /** A database file that reads back as the normal form of what was written. */
  lemma DbConfirms(bs: bytes, d: Db)
    requires TypedDb(d) && At(bs, 0, DbBytes(d)) && ReadDb(bs).Ok? && ReadDb(bs).value == NormalDb(d)
    ensures WritableDb(d) && ShallowDb(d)
  {
    var b3 := Concat(StoreBytes, d.stores);
    var b2 := Le(|d.stores|, WORD) + b3;
    var b1 := Le(d.version, WORD) + b2;
    var p0 := |DB_MAGIC| + WORD;
    var p1 := p0 + |StrBytes(d.name)|;
    HeaderAt(bs, DB_MAGIC, StrBytes(d.name) + b1);
    DbParts(bs, p0, ReadStr(bs, p0).pos);
    StrAt(bs, p0, d.name, b1);
    AtSplit(bs, p1, Le(d.version, WORD), b2);
    AtSplit(bs, p1 + WORD, Le(|d.stores|, WORD), b3);
    StoresConfirm(bs, p1 + WORD + WORD, d.stores);
  }

  /** A blob that is shallow and writable cannot be read from a proper prefix. */
  lemma BlobPrefixFails(v: Value, n: nat)
    requires Typed(v) && Shallow(v, 0) && Writable(v, 0) && n < |BlobBytes(v)|
    ensures ReadBlob(BlobBytes(v)[..n]).Fail?
  {
    var b := BlobBytes(v);
    assert At(b, 0, b);
    BlobAt(b, v);
    assert b == b[..n] + b[n..];
    if ReadBlob(b[..n]).Ok? { BlobExtends(b[..n], b[n..]); }
  }

  lemma BlobExtends(bs: bytes, more: bytes)
    requires ReadBlob(bs).Ok?
    ensures ReadBlob(bs + more) == ReadBlob(bs)
  {
    HeaderExtends(bs, more, BLOB_MAGIC);
    DecodeExtends(bs, more, |BLOB_MAGIC| + WORD, 0);
  }

  /** Where an entry stands, its blob is read up to the written length, which is cut to 32 bits. */
  lemma EntryBlobAt(bs: bytes, pos: nat, e: Entry)
    requires ValidUtf8(e.url) && ShortText(e.url) && At(bs, pos, EntryBytes(e))
    ensures var n := |BlobBytes(e.value)| % MAX_LENGTH; var p := pos + |StrBytes(e.url)| + WORD;
            && p + n <= |bs| && n <= |BlobBytes(e.value)|
            && ReadEntry(bs, pos) ==
               match ReadBlob(BlobBytes(e.value)[..n]) case Fail => Fail case Ok(v, _) => Ok(Entry(e.url, v), p + n)
  {
    var blob := BlobBytes(e.value);
    var p, n := pos + |StrBytes(e.url)|, |blob| % MAX_LENGTH;
    StrAt(bs, pos, e.url, Le(|blob|, WORD) + blob);
    AtSplit(bs, p, Le(|blob|, WORD), blob);
    assert ReadLe(bs, p, WORD) == Ok(n, p + WORD) by {
      TakeAt(bs, p, Le(|blob|, WORD));
      LeCut(|blob|, WORD);
      Pow256Values();
    }
    TakeAt(bs, p + WORD, blob[..n]);
    EntryIs(bs, pos, e.url, p, n, blob[..n]);
  }

  lemma EntryIs(bs: bytes, pos: nat, url: bytes, p: nat, n: nat, blob: bytes)
    requires ReadStr(bs, pos) == Ok(url, p) && ReadLe(bs, p, WORD) == Ok(n, p + WORD) && Take(bs, p + WORD, n) == Ok(blob, p + WORD + n)
    ensures ReadEntry(bs, pos) == match ReadBlob(blob) case Fail => Fail case Ok(v, _) => Ok(Entry(url, v), p + WORD + n)
  {
  }

  /** An entry whose blob has 2^32 bytes or more is never read back; if nothing else is wrong with
      it, it is rejected, and with it the whole cache. */
  lemma LongBlobIsRejected(bs: bytes, pos: nat, e: Entry)
    requires TypedEntry(e) && ShortText(e.url) && At(bs, pos, EntryBytes(e)) && |BlobBytes(e.value)| >= MAX_LENGTH
    ensures !(ReadEntry(bs, pos).Ok? && ReadEntry(bs, pos).value == NormalEntry(e))
    ensures Shallow(e.value, 0) && Writable(e.value, 0) ==> ReadEntry(bs, pos) == Fail
  {
    var n := |BlobBytes(e.value)| % MAX_LENGTH;
    EntryBlobAt(bs, pos, e);
    if Shallow(e.value, 0) && Writable(e.value, 0) {
      BlobPrefixFails(e.value, n);
    } else if ReadEntry(bs, pos).Ok? && ReadEntry(bs, pos).value == NormalEntry(e) {
      OnlyIf(BlobBytes(e.value)[..n], |BLOB_MAGIC| + WORD, e.value, 0);
    }
  }

  lemma EntryConfirms(bs: bytes, e: Entry)
    requires TypedEntry(e)
    ensures Confirms(ReadEntry, EntryBytes, NormalEntry, GoodEntry, bs, e)
  {
    forall p: nat | At(bs, p, EntryBytes(e)) && ReadEntry(bs, p).Ok? && ReadEntry(bs, p).value == NormalEntry(e)
      ensures GoodEntry(e) && ReadEntry(bs, p).pos == p + |EntryBytes(e)|
    {
      StrIsShort(bs, p);
      EntryBlobAt(bs, p, e);
      OnlyIf(BlobBytes(e.value)[..|BlobBytes(e.value)| % MAX_LENGTH], |BLOB_MAGIC| + WORD, e.value, 0);
      if |BlobBytes(e.value)| >= MAX_LENGTH { LongBlobIsRejected(bs, p, e); }
      EntryAt(bs, p, e);
    }
  }

  lemma CacheConfirms(bs: bytes, es: seq<Entry>)
    requires Every(TypedEntry, es) && At(bs, 0, CacheBytes(es)) && ReadCache(bs).Ok? && ReadCache(bs).value == Mapped(NormalEntry, es)
    ensures WritableCache(es) && Every(ShallowEntry, es)
  {
    var p, body := |CACHE_MAGIC| + WORD, Concat(EntryBytes, es);
    HeaderAt(bs, CACHE_MAGIC, Le(|es|, WORD) + body);
    WordIsShort(bs, p);
    ManyLength(ReadEntry, bs, p + WORD, ReadLe(bs, p, WORD).value);
    NumberAt(bs, p, |es|, WORD, body);
    forall i | 0 <= i < |es| ensures Confirms(ReadEntry, EntryBytes, NormalEntry, GoodEntry, bs, es[i]) { EntryConfirms(bs, es[i]); }
    ManyConfirms(ReadEntry, EntryBytes, NormalEntry, GoodEntry, bs, p + WORD, es);
    EveryBoth(ShallowEntry, WritableEntry, GoodEntry, es);
  }

  // ----- Longer input -----

  lemma HeaderExtends(bs: bytes, more: bytes, magic: bytes)
    requires ReadHeader(bs, magic).Ok?
    ensures ReadHeader(bs + more, magic) == ReadHeader(bs, magic)
  {
    ReadsExtend(bs, more, 0, |magic|);
    ReadsExtend(bs, more, |magic|, WORD);
  }

  lemma RowExtends(bs: bytes, more: bytes, pos: nat)
    requires ReadRow(bs, pos).Ok?
    ensures ReadRow(bs + more, pos) == ReadRow(bs, pos)
  {
    DecodeExtends(bs, more, pos, 0);
    DecodeExtends(bs, more, Decode(bs, pos, 0).pos, 0);
  }

  lemma StoreNameExtends(bs: bytes, more: bytes, pos: nat)
    requires ReadStoreName(bs, pos).Ok?
    ensures ReadStoreName(bs + more, pos) == ReadStoreName(bs, pos)
  {
    ReadStrExtends(bs, more, pos);
    var p := ReadStr(bs, pos).pos;
    ReadsExtend(bs, more, p, 0);
    ReadStrExtends(bs, more, p + 1);
  }

  lemma StoreHeadExtends(bs: bytes, more: bytes, pos: nat)
    requires ReadStoreHead(bs, pos).Ok?
    ensures ReadStoreHead(bs + more, pos) == ReadStoreHead(bs, pos)
  {
    StoreNameExtends(bs, more, pos);
    var p := ReadStoreName(bs, pos).pos;
    ReadsExtend(bs, more, p, 0);
    ReadsExtend(bs, more, p + 1, DOUBLE);
    ReadsExtend(bs, more, p + 1 + DOUBLE, WORD);
  }

  lemma StoreExtends(bs: bytes, more: bytes, pos: nat)
    requires ReadStore(bs, pos).Ok?
    ensures ReadStore(bs + more, pos) == ReadStore(bs, pos)
  {
    StoreHeadExtends(bs, more, pos);
    var head := ReadStoreHead(bs, pos);
    forall p: nat | ReadRow(bs, p).Ok? ensures ReadRow(bs + more, p) == ReadRow(bs, p) {
      RowExtends(bs, more, p);
    }
    ManyExtends(ReadRow, bs, more, head.pos, head.value.1);
  }

  lemma StoreStays(bs: bytes, pos: nat)
    requires ReadStore(bs, pos).Ok?
    ensures ReadStore(bs, pos).pos <= |bs|
  {
    var head := ReadStoreHead(bs, pos);
    ManyStays(ReadRow, bs, head.pos, head.value.1);
  }

  /** Success on a prefix of a file is success with the same result on the whole file. */
  lemma DbExtends(bs: bytes, more: bytes)
    requires ReadDb(bs).Ok?
    ensures ReadDb(bs + more) == ReadDb(bs) && ReadDb(bs).pos <= |bs|
  {
    HeaderExtends(bs, more, DB_MAGIC);
    var p0 := |DB_MAGIC| + WORD;
    ReadStrExtends(bs, more, p0);
    var p1 := ReadStr(bs, p0).pos;
    ReadsExtend(bs, more, p1, WORD);
    ReadsExtend(bs, more, p1 + WORD, WORD);
    forall p: nat | ReadStore(bs, p).Ok? ensures ReadStore(bs + more, p) == ReadStore(bs, p) && ReadStore(bs, p).pos <= |bs| {
      StoreExtends(bs, more, p);
      StoreStays(bs, p);
    }
    var p3, n := p1 + WORD + WORD, ReadLe(bs, p1 + WORD, WORD).value;
    ManyExtends(ReadStore, bs, more, p3, n);
    ManyStays(ReadStore, bs, p3, n);
  }

  lemma EntryExtends(bs: bytes, more: bytes, pos: nat)
    requires ReadEntry(bs, pos).Ok?
    ensures ReadEntry(bs + more, pos) == ReadEntry(bs, pos)
  {
    ReadStrExtends(bs, more, pos);
    var p := ReadStr(bs, pos).pos;
    ReadsExtend(bs, more, p, WORD);
    ReadsExtend(bs, more, p + WORD, ReadLe(bs, p, WORD).value);
  }

  lemma CacheExtends(bs: bytes, more: bytes)
    requires ReadCache(bs).Ok?
    ensures ReadCache(bs + more) == ReadCache(bs) && ReadCache(bs).pos <= |bs|
  {
    HeaderExtends(bs, more, CACHE_MAGIC);
    var p := |CACHE_MAGIC| + WORD;
    ReadsExtend(bs, more, p, WORD);
    forall q: nat | ReadEntry(bs, q).Ok? ensures ReadEntry(bs + more, q) == ReadEntry(bs, q) {
      EntryExtends(bs, more, q);
    }
    ManyExtends(ReadEntry, bs, more, p + WORD, ReadLe(bs, p, WORD).value);
    ManyStays(ReadEntry, bs, p + WORD, ReadLe(bs, p, WORD).value);
  }

  // ----- Shorter input -----

  lemma HeaderShrinks(bs: bytes, k: nat, magic: bytes)
    requires ReadHeader(bs, magic).Ok? && |magic| + WORD <= k <= |bs|
    ensures ReadHeader(bs[..k], magic) == ReadHeader(bs, magic)
  {
    ReadsShrink(bs, k, 0, |magic|);
    ReadsShrink(bs, k, |magic|, WORD);
  }

  lemma RowShrinks(bs: bytes, k: nat, pos: nat)
    requires k <= |bs| && ReadRow(bs, pos).Ok? && ReadRow(bs, pos).pos <= k
    ensures ReadRow(bs[..k], pos) == ReadRow(bs, pos)
  {
    DecodeShrinks(bs, k, pos, 0);
    DecodeShrinks(bs, k, Decode(bs, pos, 0).pos, 0);
  }

  lemma StoreNameShrinks(bs: bytes, k: nat, pos: nat)
    requires k <= |bs| && ReadStoreName(bs, pos).Ok? && ReadStoreName(bs, pos).pos <= k
    ensures ReadStoreName(bs[..k], pos) == ReadStoreName(bs, pos)
  {
    ReadStrShrinks(bs, k, pos);
    var p := ReadStr(bs, pos).pos;
    ReadsShrink(bs, k, p, 0);
    if ReadByte(bs, p).value == 1 { ReadStrShrinks(bs, k, p + 1); }
  }

  lemma StoreHeadShrinks(bs: bytes, k: nat, pos: nat)
    requires k <= |bs| && ReadStoreHead(bs, pos).Ok? && ReadStoreHead(bs, pos).pos <= k
    ensures ReadStoreHead(bs[..k], pos) == ReadStoreHead(bs, pos)
  {
    StoreNameShrinks(bs, k, pos);
    StoreCountersShrink(bs, k, ReadStoreName(bs, pos).pos);
  }

  lemma StoreCountersShrink(bs: bytes, k: nat, pos: nat)
    requires k <= |bs| && ReadStoreCounters(bs, pos).Ok? && ReadStoreCounters(bs, pos).pos <= k
    ensures ReadStoreCounters(bs[..k], pos) == ReadStoreCounters(bs, pos)
  {
    ReadsShrink(bs, k, pos, 0);
    ReadsShrink(bs, k, pos + 1, DOUBLE);
    ReadsShrink(bs, k, pos + 1 + DOUBLE, WORD);
  }

  lemma StoreMoves(bs: bytes, pos: nat)
    requires ReadStore(bs, pos).Ok?
    ensures var head := ReadStoreHead(bs, pos); pos < head.pos && head.pos + head.value.1 <= ReadStore(bs, pos).pos
  {
    var head := ReadStoreHead(bs, pos);
    ManyMoves(ReadRow, bs, head.pos, head.value.1);
  }

  lemma StoreShrinks(bs: bytes, k: nat, pos: nat)
    requires k <= |bs| && ReadStore(bs, pos).Ok? && ReadStore(bs, pos).pos <= k
    ensures ReadStore(bs[..k], pos) == ReadStore(bs, pos)
  {
    StoreMoves(bs, pos);
    StoreHeadShrinks(bs, k, pos);
    var head := ReadStoreHead(bs, pos);
    forall p: nat | ReadRow(bs, p).Ok? && ReadRow(bs, p).pos <= k ensures ReadRow(bs[..k], p) == ReadRow(bs, p) {
      RowShrinks(bs, k, p);
    }
    ManyShrinks(ReadRow, bs, k, head.pos, head.value.1);
  }

  lemma StoresShrink(bs: bytes, k: nat, pos: nat, n: nat)
    requires k <= |bs| && Many(ReadStore, bs, pos, n).Ok? && Many(ReadStore, bs, pos, n).pos <= k
    ensures pos + n <= k && Many(ReadStore, bs[..k], pos, n) == Many(ReadStore, bs, pos, n)
  {
    forall p: nat | ReadStore(bs, p).Ok? ensures p < ReadStore(bs, p).pos { StoreMoves(bs, p); }
    ManyMoves(ReadStore, bs, pos, n);
    forall p: nat | ReadStore(bs, p).Ok? && ReadStore(bs, p).pos <= k ensures ReadStore(bs[..k], p) == ReadStore(bs, p) {
      StoreShrinks(bs, k, p);
    }
    ManyShrinks(ReadStore, bs, k, pos, n);
  }

  lemma DbShrinks(bs: bytes, k: nat)
    requires k <= |bs| && ReadDb(bs).Ok? && ReadDb(bs).pos <= k
    ensures ReadDb(bs[..k]) == ReadDb(bs)
  {
    var p0 := |DB_MAGIC| + WORD;
    var name := ReadStr(bs, p0);
    var p := name.pos;
    var version, n := ReadLe(bs, p, WORD).value, ReadLe(bs, p + WORD, WORD).value;
    StoresShrink(bs, k, p + WORD + WORD, n);
    HeaderShrinks(bs, k, DB_MAGIC);
    ReadStrShrinks(bs, k, p0);
    ReadsShrink(bs, k, p, WORD);
    ReadsShrink(bs, k, p + WORD, WORD);
    DbIs(bs[..k], name.value, p, version, n);
  }

  lemma EntryShrinks(bs: bytes, k: nat, pos: nat)
    requires k <= |bs| && ReadEntry(bs, pos).Ok? && ReadEntry(bs, pos).pos <= k
    ensures ReadEntry(bs[..k], pos) == ReadEntry(bs, pos)
  {
    ReadStrShrinks(bs, k, pos);
    var p := ReadStr(bs, pos).pos;
    ReadsShrink(bs, k, p, WORD);
    ReadsShrink(bs, k, p + WORD, ReadLe(bs, p, WORD).value);
  }

  lemma CacheShrinks(bs: bytes, k: nat)
    requires k <= |bs| && ReadCache(bs).Ok? && ReadCache(bs).pos <= k
    ensures ReadCache(bs[..k]) == ReadCache(bs)
  {
    var p := |CACHE_MAGIC| + WORD;
    var n := ReadLe(bs, p, WORD).value;
    ManyMoves(ReadEntry, bs, p + WORD, n);
    HeaderShrinks(bs, k, CACHE_MAGIC);
    ReadsShrink(bs, k, p, WORD);
    forall q: nat | ReadEntry(bs, q).Ok? && ReadEntry(bs, q).pos <= k ensures ReadEntry(bs[..k], q) == ReadEntry(bs, q) {
      EntryShrinks(bs, k, q);
    }
    ManyShrinks(ReadEntry, bs, k, p + WORD, n);
  }

  // ----- Main results -----

  /** A written database reads back as its normal form, whatever follows it in the file, if and only
      if every written length has 32 bits and no row is nested too deeply; if only the nesting is
      wrong, nothing at all is read back. */
  lemma DbRoundTrip(d: Db, junk: bytes)
    requires TypedDb(d)
    ensures FromBytes(DbBytes(d) + junk) == Some(NormalDb(d)) <==> WritableDb(d) && ShallowDb(d)
    ensures WritableDb(d) && !ShallowDb(d) ==> FromBytes(DbBytes(d) + junk) == None
  {
    var bs := DbBytes(d) + junk;
    assert At(bs, 0, DbBytes(d));
    if WritableDb(d) { DbAt(bs, d); }
    if FromBytes(bs) == Some(NormalDb(d)) { DbConfirms(bs, d); }
  }

  /** Any bytes cut to `k` read back as before if the reader had not passed `k`, else as nothing. */
  lemma DbTruncationIff(bs: bytes, k: nat)
    requires k <= |bs|
    ensures FromBytes(bs[..k]) == if ReadDb(bs).Ok? && ReadDb(bs).pos <= k then FromBytes(bs) else None
  {
    if ReadDb(bs).Ok? && ReadDb(bs).pos <= k { DbShrinks(bs, k); }
    if ReadDb(bs[..k]).Ok? {
      DbExtends(bs[..k], bs[k..]);
      assert bs == bs[..k] + bs[k..];
    }
  }

  /** Hence every proper prefix of a written database reads back as nothing. */
  lemma DbTruncation(d: Db, k: nat)
    requires TypedDb(d) && WritableDb(d) && k < |DbBytes(d)|
    ensures FromBytes(DbBytes(d)[..k]) == None
  {
    var bs := DbBytes(d);
    assert ReadDb(bs).Ok? ==> ReadDb(bs).pos == |bs| by { DbAt(bs, d); }
    DbTruncationIff(bs, k);
  }

  /** The failing input for both: a database whose name is 2^32 null characters reads back, intact
      or cut anywhere after the first 21 bytes, as a database without name, version and stores. */
  lemma LongNameReadsAsEmpty(d: Db, k: nat)
    requires |d.name| == MAX_LENGTH && (forall i :: 0 <= i < |d.name| ==> d.name[i] == 0) && 21 <= k <= |DbBytes(d)|
    ensures FromBytes(DbBytes(d)[..k]) == Some(Db([], 0, [])) && !WritableDb(d)
  {
    var bs := DbBytes(d);
    var tail := Le(d.version, WORD) + (Le(|d.stores|, WORD) + Concat(StoreBytes, d.stores));
    var p := |DB_MAGIC| + WORD;
    assert At(bs, 0, bs);
    HeaderAt(bs, DB_MAGIC, StrBytes(d.name) + tail);
    AtSplit(bs, p, StrBytes(d.name), tail);
    ReadStrCut(bs, p, d.name);
    assert d.name[..0] == [];
    AtSplit(bs, p, Le(|d.name|, WORD), d.name);
    ZeroWord(bs, p + WORD, d.name, 0);
    ZeroWord(bs, p + WORD, d.name, WORD);
    DbIs(bs, [], p + WORD, 0, 0);
    DbTruncationIff(bs, k);
  }

  lemma ZeroWord(bs: bytes, pos: nat, s: bytes, i: nat)
    requires At(bs, pos, s) && i + WORD <= |s| && forall j :: 0 <= j < |s| ==> s[j] == 0
    ensures ReadLe(bs, pos + i, WORD) == Ok(0, pos + i + WORD)
  {
    var b := bs[pos + i..pos + i + WORD];
    assert forall j :: 0 <= j < WORD ==> b[j] == s[i + j] == 0;
    assert b == [0, 0, 0, 0];
    assert FromLe([0]) == 0 && [0, 0][1..] == [0] && [0, 0, 0][1..] == [0, 0] && [0, 0, 0, 0][1..] == [0, 0, 0];
  }

  /** An intact cache file reads back as its normalised entries if and only if every value is
      shallow and every written length, those of the blobs included, has 32 bits; if only the
      nesting is wrong, it reads back as the empty cache. */
  lemma CacheRoundTrip(es: seq<Entry>, junk: bytes)
    requires Every(TypedEntry, es)
    ensures DecodeCache(CacheBytes(es) + junk) == Mapped(NormalEntry, es) <==> WritableCache(es) && Every(ShallowEntry, es)
    ensures WritableCache(es) && !Every(ShallowEntry, es) ==> DecodeCache(CacheBytes(es) + junk) == []
  {
    var bs := CacheBytes(es) + junk;
    assert At(bs, 0, CacheBytes(es));
    if WritableCache(es) { CacheAt(bs, es); }
    if es != [] && DecodeCache(bs) == Mapped(NormalEntry, es) { CacheConfirms(bs, es); }
  }

  /** Any bytes cut to `k` read back as before if the reader had not passed `k`, else as empty. */
  lemma CacheTruncationIff(bs: bytes, k: nat)
    requires k <= |bs|
    ensures DecodeCache(bs[..k]) == if ReadCache(bs).Ok? && ReadCache(bs).pos <= k then DecodeCache(bs) else []
  {
    if ReadCache(bs).Ok? && ReadCache(bs).pos <= k { CacheShrinks(bs, k); }
    if ReadCache(bs[..k]).Ok? {
      CacheExtends(bs[..k], bs[k..]);
      assert bs == bs[..k] + bs[k..];
    }
  }

  /** Hence every truncation of a written cache reads back as empty. */
  lemma CacheTruncation(es: seq<Entry>, k: nat)
    requires Every(TypedEntry, es) && WritableCache(es) && k < |CacheBytes(es)|
    ensures DecodeCache(CacheBytes(es)[..k]) == []
  {
    var bs := CacheBytes(es);
    assert ReadCache(bs).Ok? ==> ReadCache(bs).pos == |bs| by { CacheAt(bs, es); }
    CacheTruncationIff(bs, k);
  }

  /** `n` arrays around a null. */
  function Nested(n: nat): Value { if n == 0 then Null else Array([Nested(n - 1)]) }

  /** The depth limit is exact: 127 levels of nesting survive, 128 do not. */
  lemma {:induction false} NestingLimit(n: nat, depth: nat)
    ensures Typed(Nested(n)) && Writable(Nested(n), depth) && (Shallow(Nested(n), depth) <==> n + depth < 128)
  {
    if n > 0 {
      NestingLimit(n - 1, depth + 1);
      var inner := Nested(n - 1);
      assert [inner][1..] == [];
      assert ShallowItems([inner], depth + 1) == Shallow(inner, depth + 1);
      assert WritableItems([inner], depth + 1) == Writable(inner, depth + 1);
      assert TypedItems([inner]) == Typed(inner);
    }
  }
}
