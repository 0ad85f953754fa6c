/**
 The imperative writers and readers of database snapshots and cache files: counted loops over
 a growing buffer and an advancing reader (crates/cv_browser/src/idb_persist.rs lines 421-504,
 crates/cv_browser/src/opfs.rs lines 394-448).
 */
module SnapshotStreams {
  import opened Common
  import opened Wire
  import opened ValueCodec
  import opened ValueStreams
  import opened Snapshots

  method WriteHeader(out: Buffer, magic: bytes)
    modifies out
    ensures out.data == old(out.data) + Header(magic)
  {
    out.Extend(magic);
    out.WriteU32(DISK_VERSION);
    assert out.data == old(out.data) + (magic + Le(DISK_VERSION, WORD));
  }

  method WriteRow(out: Buffer, row: Row)
    modifies out
    ensures out.data == old(out.data) + RowBytes(row)
  {
    EncodeValue(out, row.key, 0);
    EncodeValue(out, row.value, 0);
    assert out.data == old(out.data) + (Encode(row.key, 0) + Encode(row.value, 0));
  }

  method WriteRows(out: Buffer, rows: seq<Row>)
    modifies out
    ensures out.data == old(out.data) + Concat(RowBytes, rows)
  {
    ghost var whole := old(out.data) + Concat(RowBytes, rows);
    assert rows[0..] == rows;
    for i := 0 to |rows|
      invariant out.data + Concat(RowBytes, rows[i..]) == whole
    {
      Shift(out.data, RowBytes(rows[i]), Concat(RowBytes, rows[i + 1..]), whole);
      WriteRow(out, rows[i]);
    }
    assert rows[|rows|..] == [] && out.data + [] == out.data;
  }

  method WriteStoreName(out: Buffer, s: Store)
    modifies out
    ensures out.data == old(out.data) + StoreNameBytes(s)
  {
    out.WriteStr(s.name);
    match s.keyPath {
      case Some(kp) =>
        out.Push(1);
        out.WriteStr(kp);
        assert out.data == old(out.data) + (StrBytes(s.name) + ([1] + StrBytes(kp)));
      case None =>
        out.Push(0);
        assert out.data == old(out.data) + (StrBytes(s.name) + ([0] + []));
    }
  }

  method WriteStoreCounters(out: Buffer, s: Store)
    modifies out
    ensures out.data == old(out.data) + StoreCountersBytes(s)
  {
    out.Push(if s.autoIncrement then 1 else 0);
    out.Extend(Le(s.autoKey, DOUBLE));
    out.WriteU32(|s.rows|);
    assert out.data ==
      old(out.data) + ([if s.autoIncrement then 1 else 0] + (Le(s.autoKey, DOUBLE) + Le(|s.rows|, WORD)));
  }

  method WriteStore(out: Buffer, s: Store)
    modifies out
    ensures out.data == old(out.data) + StoreBytes(s)
  {
    WriteStoreName(out, s);
    WriteStoreCounters(out, s);
    WriteRows(out, s.rows);
    StoreBytesAre(old(out.data), s);
  }

  lemma StoreBytesAre(start: bytes, s: Store)
    ensures start + StoreNameBytes(s) + StoreCountersBytes(s) + Concat(RowBytes, s.rows) == start + StoreBytes(s)
  {
    Regroup(start, StoreNameBytes(s), StoreCountersBytes(s), Concat(RowBytes, s.rows));
  }

  lemma Regroup(start: bytes, a: bytes, b: bytes, c: bytes)
    ensures start + a + b + c == start + ((a + b) + c)
  {
  }

  method ToBytes(d: Db) returns (bs: bytes)
    ensures bs == DbBytes(d)
  {
    var out := new Buffer();
    WriteHeader(out, DB_MAGIC);
    out.WriteStr(d.name);
    out.WriteU32(d.version);
    out.WriteU32(|d.stores|);
    WriteStores(out, d.stores);
    assert [] + Header(DB_MAGIC) == Header(DB_MAGIC);
    DbBytesAre(d);
    return out.data;
  }

  method WriteStores(out: Buffer, stores: seq<Store>)
    modifies out
    ensures out.data == old(out.data) + Concat(StoreBytes, stores)
  {
    ghost var whole := old(out.data) + Concat(StoreBytes, stores);
    assert stores[0..] == stores;
    for i := 0 to |stores|
      invariant out.data + Concat(StoreBytes, stores[i..]) == whole
    {
      Shift(out.data, StoreBytes(stores[i]), Concat(StoreBytes, stores[i + 1..]), whole);
      WriteStore(out, stores[i]);
    }
    assert stores[|stores|..] == [] && out.data + [] == out.data;
  }

  lemma DbBytesAre(d: Db)
    ensures Header(DB_MAGIC) + StrBytes(d.name) + Le(d.version, WORD) + Le(|d.stores|, WORD) + Concat(StoreBytes, d.stores) == DbBytes(d)
  {
    RegroupFive(Header(DB_MAGIC), StrBytes(d.name), Le(d.version, WORD), Le(|d.stores|, WORD), Concat(StoreBytes, d.stores));
  }

  lemma RegroupFive(a: bytes, b: bytes, c: bytes, d: bytes, e: bytes)
    ensures a + b + c + d + e == a + (b + (c + (d + e)))
  {
  }

  method TakeHeader(r: Reader, magic: bytes) returns (ok: bool)
    requires r.pos == 0
    modifies r
    ensures match ReadHeader(r.input, magic) case Fail => !ok case Ok(_, p) => ok && r.pos == p
  {
    var m := r.TakeBytes(|magic|);
    if m.None? || m.value != magic {
      return false;
    }
    var v := r.Unsigned(WORD);
    return v.Some? && v.value == DISK_VERSION;
  }

  method TakeRow(r: Reader) returns (row: Option<Row>)
    requires r.pos <= |r.input|
    modifies r
    ensures r.Did(row, ReadRow(r.input, old(r.pos)))
  {
    var key := DecodeValue(r, 0);
    if key.None? {
      return None;
    }
    var value := DecodeValue(r, 0);
    if value.None? {
      return None;
    }
    return Some(Row(key.value, value.value));
  }

  method TakeRows(r: Reader, n: nat) returns (rows: Option<seq<Row>>)
    requires r.pos <= |r.input|
    modifies r
    ensures r.Did(rows, Many(ReadRow, r.input, old(r.pos), n)) && (rows.Some? ==> r.pos <= |r.input|)
  {
    var acc, ok := [], true;
    ghost var ps := [r.pos];
    for i := 0 to n
      invariant r.pos <= |r.input| && |acc| == i && Chain(ReadRow, r.input, ps, acc) && ps[0] == old(r.pos) && ps[i] == r.pos
    {
      ok, acc, ps := NextRow(r, acc, ps);
      if !ok {
        ChainIsMany(ReadRow, r.input, ps, acc, n);
        return None;
      }
    }
    ChainIsMany(ReadRow, r.input, ps, acc, n);
    return Some(acc);
  }

  /** One round of the loop. */
  method NextRow(r: Reader, acc: seq<Row>, ghost ps: seq<nat>) returns (ok: bool, more: seq<Row>, ghost ps': seq<nat>)
    requires r.pos <= |r.input| && Chain(ReadRow, r.input, ps, acc) && ps[|acc|] == r.pos
    modifies r
    ensures Chain(ReadRow, r.input, ps', more) && ps'[0] == ps[0]
    ensures if ok then r.pos <= |r.input| && |more| == |acc| + 1 && ps'[|more|] == r.pos
            else |more| == |acc| && ReadRow(r.input, ps'[|more|]).Fail?
  {
    var x := TakeRow(r);
    if x.None? {
      return false, acc, ps;
    }
    ChainGrows(ReadRow, r.input, ps, acc);
    return true, acc + [x.value], ps + [r.pos];
  }

  method TakeKeyPath(r: Reader) returns (kp: Option<Option<bytes>>)
    requires r.pos <= |r.input|
    modifies r
    ensures r.Did(kp, ReadKeyPath(r.input, old(r.pos)))
  {
    var has := r.Byte();
    if has.None? || has.value > 1 {
      return None;
    }
    if has.value == 0 {
      return Some(None);
    }
    var s := r.Str();
    return if s.None? then None else Some(Some(s.value));
  }

  method TakeStore(r: Reader) returns (store: Option<Store>)
    requires r.pos <= |r.input|
    modifies r
    ensures r.Did(store, ReadStore(r.input, old(r.pos))) && (store.Some? ==> r.pos <= |r.input|)
  {
    var name := r.Str();
    if name.None? {
      return None;
    }
    var kp := TakeKeyPath(r);
    if kp.None? {
      return None;
    }
    var auto := r.Byte();
    if auto.None? {
      return None;
    }
    var key := r.Unsigned(DOUBLE);
    if key.None? {
      return None;
    }
    var n := r.Unsigned(WORD);
    if n.None? || n.value > |r.input| {
      return None;
    }
    var rows := TakeRows(r, n.value);
    if rows.None? {
      return None;
    }
    return Some(Store(name.value, kp.value, auto.value != 0, key.value, rows.value));
  }

  method FromBytesLoop(bs: bytes) returns (d: Option<Db>)
    ensures d == FromBytes(bs)
  {
    var r := new Reader(bs);
    var ok := TakeHeader(r, DB_MAGIC);
    if !ok {
      return None;
    }
    var name := r.Str();
    if name.None? {
      return None;
    }
    var version := r.Unsigned(WORD);
    if version.None? {
      return None;
    }
    var n := r.Unsigned(WORD);
    if n.None? || n.value > |bs| {
      return None;
    }
    var stores := TakeStores(r, n.value);
    return if stores.None? then None else Some(Db(name.value, version.value, stores.value));
  }

  method TakeStores(r: Reader, n: nat) returns (stores: Option<seq<Store>>)
    requires r.pos <= |r.input|
    modifies r
    ensures r.Did(stores, Many(ReadStore, r.input, old(r.pos), n))
  {
    var acc, ok := [], true;
    ghost var ps := [r.pos];
    for i := 0 to n
      invariant r.pos <= |r.input| && |acc| == i && Chain(ReadStore, r.input, ps, acc) && ps[0] == old(r.pos) && ps[i] == r.pos
    {
      ok, acc, ps := NextStore(r, acc, ps);
      if !ok {
        ChainIsMany(ReadStore, r.input, ps, acc, n);
        return None;
      }
    }
    ChainIsMany(ReadStore, r.input, ps, acc, n);
    return Some(acc);
  }

  /** One round of the loop. */
  method NextStore(r: Reader, acc: seq<Store>, ghost ps: seq<nat>) returns (ok: bool, more: seq<Store>, ghost ps': seq<nat>)
    requires r.pos <= |r.input| && Chain(ReadStore, r.input, ps, acc) && ps[|acc|] == r.pos
    modifies r
    ensures Chain(ReadStore, r.input, ps', more) && ps'[0] == ps[0]
    ensures if ok then r.pos <= |r.input| && |more| == |acc| + 1 && ps'[|more|] == r.pos
            else |more| == |acc| && ReadStore(r.input, ps'[|more|]).Fail?
  {
    var x := TakeStore(r);
    if x.None? {
      return false, acc, ps;
    }
    ChainGrows(ReadStore, r.input, ps, acc);
    return true, acc + [x.value], ps + [r.pos];
  }

  method EncodeCache(es: seq<Entry>) returns (bs: bytes)
    ensures bs == CacheBytes(es)
  {
    var out := new Buffer();
    WriteHeader(out, CACHE_MAGIC);
    out.WriteU32(|es|);
    ghost var start := out.data;
    ghost var whole := start + Concat(EntryBytes, es);
    assert es[0..] == es;
    for i := 0 to |es|
      invariant out.data + Concat(EntryBytes, es[i..]) == whole
    {
      Shift(out.data, EntryBytes(es[i]), Concat(EntryBytes, es[i + 1..]), whole);
      WriteEntry(out, es[i]);
    }
    assert es[|es|..] == [] && out.data + [] == out.data;
    assert start == Header(CACHE_MAGIC) + Le(|es|, WORD);
    return out.data;
  }

  method EncodeBlob(v: Value) returns (bs: bytes)
    ensures bs == BlobBytes(v)
  {
    var out := new Buffer();
    WriteHeader(out, BLOB_MAGIC);
    EncodeValue(out, v, 0);
    return out.data;
  }

  method WriteEntry(out: Buffer, e: Entry)
    modifies out
    ensures out.data == old(out.data) + EntryBytes(e)
  {
    ghost var start := out.data;
    out.WriteU32(|e.url|);
    out.Extend(e.url);
    assert out.data == start + StrBytes(e.url);
    var blob := EncodeBlob(e.value);
    out.WriteU32(|blob|);
    out.Extend(blob);
    assert out.data == start + (StrBytes(e.url) + (Le(|blob|, WORD) + blob));
  }

  method TakeEntry(r: Reader) returns (e: Option<Entry>)
    requires r.pos <= |r.input|
    modifies r
    ensures r.Did(e, ReadEntry(r.input, old(r.pos)))
  {
    var url := r.Str();
    if url.None? {
      return None;
    }
    var n := r.Unsigned(WORD);
    if n.None? {
      return None;
    }
    var blob := r.TakeBytes(n.value);
    if blob.None? {
      return None;
    }
    var inner := new Reader(blob.value);
    var ok := TakeHeader(inner, BLOB_MAGIC);
    if !ok {
      return None;
    }
    var v := DecodeValue(inner, 0);
    return if v.None? then None else Some(Entry(url.value, v.value));
  }

  method DecodeCacheLoop(bs: bytes) returns (es: seq<Entry>)
    ensures es == DecodeCache(bs)
  {
    var r := new Reader(bs);
    var ok := TakeHeader(r, CACHE_MAGIC);
    if !ok {
      return [];
    }
    var n := r.Unsigned(WORD);
    if n.None? || n.value > |bs| {
      return [];
    }
    var entries := TakeEntries(r, n.value);
    return if entries.None? then [] else entries.value;
  }

  method TakeEntries(r: Reader, n: nat) returns (entries: Option<seq<Entry>>)
    requires r.pos <= |r.input|
    modifies r
    ensures r.Did(entries, Many(ReadEntry, r.input, old(r.pos), n))
  {
    var acc, ok := [], true;
    ghost var ps := [r.pos];
    for i := 0 to n
      invariant r.pos <= |r.input| && |acc| == i && Chain(ReadEntry, r.input, ps, acc) && ps[0] == old(r.pos) && ps[i] == r.pos
    {
      ok, acc, ps := NextEntry(r, acc, ps);
      if !ok {
        ChainIsMany(ReadEntry, r.input, ps, acc, n);
        return None;
      }
    }
    ChainIsMany(ReadEntry, r.input, ps, acc, n);
    return Some(acc);
  }

  /** One round of the loop. */
  method NextEntry(r: Reader, acc: seq<Entry>, ghost ps: seq<nat>) returns (ok: bool, more: seq<Entry>, ghost ps': seq<nat>)
    requires r.pos <= |r.input| && Chain(ReadEntry, r.input, ps, acc) && ps[|acc|] == r.pos
    modifies r
    ensures Chain(ReadEntry, r.input, ps', more) && ps'[0] == ps[0]
    ensures if ok then r.pos <= |r.input| && |more| == |acc| + 1 && ps'[|more|] == r.pos
            else |more| == |acc| && ReadEntry(r.input, ps'[|more|]).Fail?
  {
    var x := TakeEntry(r);
    if x.None? {
      return false, acc, ps;
    }
    ChainGrows(ReadEntry, r.input, ps, acc);
    return true, acc + [x.value], ps + [r.pos];
  }
}
