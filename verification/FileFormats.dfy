/**
 The files themselves: which bytes the writers of crates/cv_browser/src/idb_persist.rs and
 crates/cv_browser/src/opfs.rs produce, which files their readers refuse unseen, and that plain
 data comes back as it was.
 */
module FileFormats {
  import opened Common
  import opened Wire
  import opened ValueCodec
  import opened Snapshots

  // ----- Byte for byte -----

  /** A 32-bit number, least significant byte first. */
  function Word4(v: nat): (r: bytes)
    ensures |r| == 4
  {
    [v % 256, v / 256 % 256, v / 0x1_0000 % 256, v / 0x100_0000 % 256]
  }

  /** A string: its length, then its bytes. */
  function Text(s: bytes): bytes { Word4(|s|) + s }

  lemma TextIs(s: bytes)
    ensures StrBytes(s) == Text(s)
  {
    WordBytes(|s|);
  }

  /** The bytes of every value that is not a number or nested, at any depth below 128. */
  lemma ScalarBytes(v: Value, depth: nat)
    requires depth < 128
    ensures v.Undefined? || v.Hole? ==> Encode(v, depth) == [0]
    ensures v.Null? || v.Function? || v.BigInt? ==> Encode(v, depth) == [1]
    ensures v.Bool? ==> Encode(v, depth) == [2, if v.b then 1 else 0]
    ensures v.String? ==> Encode(v, depth) == [4] + Text(v.s)
  {
    if v.String? { TextIs(v.s); }
  }

  /** A number: tag 3 and the 64-bit pattern, least significant byte first. */
  lemma NumberBytes(bits: nat, depth: nat)
    requires depth < 128
    ensures Encode(Number(bits), depth) == [3] + Word4(bits) + Word4(bits / 0x1_0000_0000)
  {
    DoubleBytes(bits);
  }

  lemma DoubleBytes(v: nat)
    ensures Le(v, DOUBLE) == Word4(v) + Word4(v / 0x1_0000_0000)
  {
    WordBytes(v);
    WordBytes(v / 0x1_0000_0000);
    assert v / 256 / 256 / 256 / 256 == v / 0x1_0000_0000;
    forall i | 0 <= i < 4 ensures Le(v, DOUBLE)[i] == Le(v, WORD)[i] && Le(v, DOUBLE)[4 + i] == Le(v / 0x1_0000_0000, WORD)[i] {
      HighByte(v, i);
    }
  }

  lemma HighByte(v: nat, i: nat)
    ensures ByteOf(v, 4 + i) == ByteOf(v / 256 / 256 / 256 / 256, i)
  {
    assert ByteOf(v, 4 + i) == ByteOf(v / 256, 3 + i);
    assert ByteOf(v / 256, 3 + i) == ByteOf(v / 256 / 256, 2 + i);
    assert ByteOf(v / 256 / 256, 2 + i) == ByteOf(v / 256 / 256 / 256, 1 + i);
  }

  /** An array: tag 5, the number of elements, the elements. */
  lemma ArrayBytes(items: seq<Value>, depth: nat)
    requires depth < 128
    ensures Encode(Array(items), depth) == [5] + Word4(|items|) + EncodeItems(items, depth + 1)
  {
    WordBytes(|items|);
  }

  /** An object: tag 6, the number of data properties, each as key and value. */
  lemma ObjectBytes(props: seq<Prop>, depth: nat)
    requires depth < 128 && forall i :: 0 <= i < |props| ==> IsData(props[i])
    ensures Encode(Object(props), depth) == [6] + Word4(|props|) + PropsBytes(props, depth + 1)
  {
    AllKept(props, depth + 1);
    WordBytes(|props|);
  }

  function PropsBytes(ps: seq<Prop>, depth: nat): bytes {
    if ps == [] then [] else Text(ps[0].key) + Encode(ps[0].value, depth) + PropsBytes(ps[1..], depth)
  }

  lemma {:induction false} AllKept(ps: seq<Prop>, depth: nat)
    requires forall i :: 0 <= i < |ps| ==> IsData(ps[i])
    ensures KeptCount(ps) == |ps| && EncodeProps(ps, depth) == PropsBytes(ps, depth)
  {
    if ps != [] {
      AllKept(ps[1..], depth);
      TextIs(ps[0].key);
    }
  }

  lemma Flat(a: bytes, b: bytes, c: bytes, d: bytes)
    ensures a + (b + (c + d)) == a + b + c + d
  {
  }

  lemma HeaderIs(magic: bytes)
    ensures Header(magic) == magic + [1, 0, 0, 0]
  {
    WordBytes(1);
  }

  /** `TBIDB`, version 1, name, version, stores. */
  lemma DbFileBytes(d: Db)
    ensures DbBytes(d) == [0x54, 0x42, 0x49, 0x44, 0x42, 1, 0, 0, 0] + (Text(d.name) + Word4(d.version) + Word4(|d.stores|)
                          + Concat(StoreBytes, d.stores))
  {
    HeaderIs(DB_MAGIC);
    TextIs(d.name);
    WordBytes(d.version);
    WordBytes(|d.stores|);
    Flat(Text(d.name), Word4(d.version), Word4(|d.stores|), Concat(StoreBytes, d.stores));
  }

  /** A store: name, optional key path, auto-increment flag and counter, rows of key and value. */
  lemma StoreFileBytes(s: Store)
    ensures StoreBytes(s) == Text(s.name) + (if s.keyPath.Some? then [1] + Text(s.keyPath.value) else [0])
                             + ([if s.autoIncrement then 1 else 0] + (Word4(s.autoKey) + Word4(s.autoKey / 0x1_0000_0000) + Word4(|s.rows|)))
                             + Concat((r: Row) => Encode(r.key, 0) + Encode(r.value, 0), s.rows)
  {
    TextIs(s.name);
    if s.keyPath.Some? { TextIs(s.keyPath.value); }
    CountersAre(s);
    SameConcat(RowBytes, (r: Row) => Encode(r.key, 0) + Encode(r.value, 0), s.rows);
  }

  lemma CountersAre(s: Store)
    ensures StoreCountersBytes(s) ==
            [if s.autoIncrement then 1 else 0] + (Word4(s.autoKey) + Word4(s.autoKey / 0x1_0000_0000) + Word4(|s.rows|))
  {
    DoubleBytes(s.autoKey);
    WordBytes(|s.rows|);
  }

  lemma {:induction false} SameConcat<U>(f: U -> bytes, g: U -> bytes, us: seq<U>)
    requires forall i :: 0 <= i < |us| ==> f(us[i]) == g(us[i])
    ensures Concat(f, us) == Concat(g, us)
  {
    if us != [] { SameConcat(f, g, us[1..]); }
  }

  /** `TBCAC`, version 1, the number of entries, the entries. */
  lemma CacheFileBytes(es: seq<Entry>)
    ensures CacheBytes(es) == [0x54, 0x42, 0x43, 0x41, 0x43, 1, 0, 0, 0] + (Word4(|es|) + Concat(EntryBytes, es))
  {
    assert Header(CACHE_MAGIC) == [0x54, 0x42, 0x43, 0x41, 0x43, 1, 0, 0, 0] by { HeaderIs(CACHE_MAGIC); }
    assert Le(|es|, WORD) == Word4(|es|) by { WordBytes(|es|); }
  }

  /** An entry: address, then a blob with its length: `TBVAL`, version 1 and the value. */
  lemma EntryFileBytes(e: Entry)
    ensures EntryBytes(e) == Text(e.url) + Text([0x54, 0x42, 0x56, 0x41, 0x4C, 1, 0, 0, 0] + Encode(e.value, 0))
  {
    HeaderIs(BLOB_MAGIC);
    TextIs(e.url);
    TextIs(BlobBytes(e.value));
  }

  // ----- Files of another kind or version -----

  lemma HeaderIff(bs: bytes, magic: bytes)
    ensures ReadHeader(bs, magic).Ok? <==> At(bs, 0, magic + [1, 0, 0, 0])
  {
    HeaderIs(magic);
    var head := magic + [1, 0, 0, 0];
    if At(bs, 0, head) {
      assert head + [] == head && Header(magic) == head;
      HeaderAt(bs, magic, []);
    }
    if ReadHeader(bs, magic).Ok? {
      var n := |magic|;
      var word := bs[n..n + WORD];
      assert FromLe(word) == 1;
      OneIs(word);
      assert bs[..n] == bs[0..n] == magic;
      assert At(bs, 0, head);
    }
  }

  lemma OneIs(w: bytes)
    requires |w| == 4 && FromLe(w) == 1
    ensures w == [1, 0, 0, 0]
  {
    assert FromLe(w) == w[0] + 256 * FromLe(w[1..]);
    assert FromLe(w[1..]) == w[1] + 256 * FromLe(w[1..][1..]);
    assert w[1..][1..] == w[2..];
    assert FromLe(w[2..]) == w[2] + 256 * FromLe(w[2..][1..]);
    assert w[2..][1..] == w[3..];
    assert FromLe(w[3..]) == w[3] + 256 * FromLe(w[3..][1..]);
    assert w[3..][1..] == [];
  }

  /** A file that does not begin with its magic and version 1 is never read, so a database, a cache and
      a blob are never mistaken for one another. */
  lemma ForeignFilesAreRefused(bs: bytes)
    ensures FromBytes(bs).Some? ==> At(bs, 0, [0x54, 0x42, 0x49, 0x44, 0x42, 1, 0, 0, 0])
    ensures DecodeCache(bs) != [] ==> At(bs, 0, [0x54, 0x42, 0x43, 0x41, 0x43, 1, 0, 0, 0])
    ensures ReadBlob(bs).Ok? ==> At(bs, 0, [0x54, 0x42, 0x56, 0x41, 0x4C, 1, 0, 0, 0])
    ensures FromBytes(bs).Some? ==> DecodeCache(bs) == [] && ReadBlob(bs).Fail?
    ensures DecodeCache(bs) != [] ==> ReadBlob(bs).Fail?
  {
    HeaderIff(bs, DB_MAGIC);
    HeaderIff(bs, CACHE_MAGIC);
    HeaderIff(bs, BLOB_MAGIC);
    assert DB_MAGIC + [1, 0, 0, 0] == [0x54, 0x42, 0x49, 0x44, 0x42, 1, 0, 0, 0];
    assert CACHE_MAGIC + [1, 0, 0, 0] == [0x54, 0x42, 0x43, 0x41, 0x43, 1, 0, 0, 0];
    assert BLOB_MAGIC + [1, 0, 0, 0] == [0x54, 0x42, 0x56, 0x41, 0x4C, 1, 0, 0, 0];
    MagicsDiffer(bs);
  }

  lemma MagicsDiffer(bs: bytes)
    ensures At(bs, 0, DB_MAGIC + [1, 0, 0, 0]) ==> !At(bs, 0, CACHE_MAGIC + [1, 0, 0, 0]) && !At(bs, 0, BLOB_MAGIC + [1, 0, 0, 0])
    ensures At(bs, 0, CACHE_MAGIC + [1, 0, 0, 0]) ==> !At(bs, 0, BLOB_MAGIC + [1, 0, 0, 0])
  {
    assert (DB_MAGIC + [1, 0, 0, 0])[2] == 0x49 && (CACHE_MAGIC + [1, 0, 0, 0])[2] == 0x43 && (BLOB_MAGIC + [1, 0, 0, 0])[2] == 0x56;
  }

  /** Tags no writer produces are refused; any byte but 0 is true. */
  lemma ForeignBytesAreRefused(bs: bytes, pos: nat, depth: nat)
    requires pos < |bs|
    ensures bs[pos] > 6 ==> Decode(bs, pos, depth) == Fail
    ensures bs[pos] > 1 ==> ReadKeyPath(bs, pos) == Fail
    ensures depth < 128 && bs[pos] == 2 && pos + 1 < |bs| ==> Decode(bs, pos, depth) == Ok(Bool(bs[pos + 1] != 0), pos + 2)
  {
  }

  // ----- Plain data -----

  predicate PlainRow(r: Row) { Plain(r.key) && Plain(r.value) }

  predicate PlainStore(s: Store) { Every(PlainRow, s.rows) }

  predicate PlainDb(d: Db) { Every(PlainStore, d.stores) }

  predicate PlainEntry(e: Entry) { Plain(e.value) }

  lemma MappedSame<U>(f: U -> U, us: seq<U>)
    requires forall i :: 0 <= i < |us| ==> f(us[i]) == us[i]
    ensures Mapped(f, us) == us
  {
  }

  lemma PlainStoreIsNormal(s: Store)
    requires PlainStore(s)
    ensures NormalStore(s) == s
  {
    forall i | 0 <= i < |s.rows| ensures NormalRow(s.rows[i]) == s.rows[i] {
      PlainIsNormal(s.rows[i].key);
      PlainIsNormal(s.rows[i].value);
    }
    MappedSame(NormalRow, s.rows);
  }

  /** A database of plain data within the limits reads back exactly as it was written. */
  lemma PlainDbReadsBack(d: Db, junk: bytes)
    requires TypedDb(d) && WritableDb(d) && ShallowDb(d) && PlainDb(d)
    ensures FromBytes(DbBytes(d) + junk) == Some(d)
  {
    DbRoundTrip(d, junk);
    forall i | 0 <= i < |d.stores| ensures NormalStore(d.stores[i]) == d.stores[i] { PlainStoreIsNormal(d.stores[i]); }
    MappedSame(NormalStore, d.stores);
  }

  /** A cache of plain data within the limits reads back exactly as it was written. */
  lemma PlainCacheReadsBack(es: seq<Entry>, junk: bytes)
    requires Every(TypedEntry, es) && WritableCache(es) && Every(ShallowEntry, es) && Every(PlainEntry, es)
    ensures DecodeCache(CacheBytes(es) + junk) == es
  {
    CacheRoundTrip(es, junk);
    forall i | 0 <= i < |es| ensures NormalEntry(es[i]) == es[i] { PlainIsNormal(es[i].value); }
    MappedSame(NormalEntry, es);
  }
}
