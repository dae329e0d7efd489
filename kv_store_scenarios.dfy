/**
 * The store's behaviour on the scenarios its LevelDB test exercises: a
 * fresh store, one transaction of puts committed through the update
 * helper, then reads whose answers are stated exactly. The columns and
 * variables are the ones the test declares (ids 1..4 for columns, 0..2 for
 * variables; column and variable ids live in separate namespaces).
 *
 * Most writes in these scenarios store a key under itself (put(c, x, x)),
 * so the reasoning goes through "identity columns": a column that holds
 * exactly the keys of a given set, each mapped to its own encoding.
 */
module KvStoreScenarios {
  import opened Wrappers
  import opened Unsigned
  import opened ByteOrder
  import opened Serializers
  import opened KvStore
  import opened KvStoreOrdering

  const VARIABLE_1: Variable<int32> := Variable(0, IntSerializer)
  const VARIABLE_2: Variable<int32> := Variable(1, IntSerializer)
  const VARIABLE_3: Variable<uint64> := Variable(2, UInt64Serializer)

  const COLUMN_1: Column<int32, int32> := IntColumn(1)
  const COLUMN_2: Column<int32, int32> := IntColumn(2)
  const COLUMN_3: Column<int32, int32> := IntColumn(3)
  const COLUMN_4: Column<uint64, uint64> := UInt64Column(4)

  // ------------------------------------------------------------------
  // Identity columns of ints

  function Elements<T>(xs: seq<T>): set<T>
  {
    set x | x in xs
  }

  /** lo, lo + 1, ..., hi (empty when hi < lo). */
  function IntRange(lo: int32, hi: int32): seq<int32>
  {
    seq(if hi < lo then 0 else hi - lo + 1, i requires 0 <= i <= hi - lo => (lo + i) as int32)
  }

  lemma IntRangeMembers(lo: int32, hi: int32)
    ensures forall x: int32 :: x in IntRange(lo, hi) <==> lo <= x <= hi
  {
    forall x: int32 | lo <= x <= hi ensures x in IntRange(lo, hi) {
      assert IntRange(lo, hi)[x - lo] == x;
    }
  }

  /** put(column c, x, x) for each x of xs, in order. */
  function IntIdentityWrites(c: nat, xs: seq<int32>): seq<Write>
  {
    seq(|xs|, i requires 0 <= i < |xs| => ColumnWrite(IntColumn(c), xs[i], xs[i]))
  }

  /** The entries (x, x) for x = lo, ..., hi. */
  function IntIdentityEntries(lo: int32, hi: int32): seq<ColumnEntry<int32, int32>>
  {
    var xs := IntRange(lo, hi);
    seq(|xs|, i requires 0 <= i < |xs| => ColumnEntry(xs[i], xs[i]))
  }

  /** Column c holds exactly the non-negative ints of `keys`, each stored under itself. */
  ghost predicate IntIdentityColumn(data: map<StoreKey, Bytes>, c: nat, keys: set<int32>)
  {
    && HoldsNonNegativeInts(data, c)
    && (forall x: int32 | 0 <= x :: ColumnKey(c, SerializeInt(x)) in data <==> x in keys)
    && (forall x | x in keys :: 0 <= x && ColumnKey(c, SerializeInt(x)) in data
          && data[ColumnKey(c, SerializeInt(x))] == SerializeInt(x))
  }

  /** Putting a non-negative x under itself adds x to an identity column. */
  lemma IntIdentityPut(m: map<StoreKey, Bytes>, c: nat, keys: set<int32>, x: int32)
    requires IntIdentityColumn(m, c, keys) && 0 <= x
    ensures IntIdentityColumn(m[ColumnKey(c, SerializeInt(x)) := SerializeInt(x)], c, keys + {x})
  {
    Pow256Widths();
    DecodeEncode(x, 4);
    IntWidth(x);
    forall z: int32 | 0 <= z ensures SerializeInt(z) == SerializeInt(x) <==> z == x {
      IntOrderPreservingOnNonNegatives(z, x);
    }
  }

  /** A batch of identity puts into column c adds its keys to c's identity set. */
  lemma {:induction false} IntIdentityWritesStaged(m: map<StoreKey, Bytes>, c: nat, keys: set<int32>, xs: seq<int32>)
    requires IntIdentityColumn(m, c, keys)
    requires forall i | 0 <= i < |xs| :: 0 <= xs[i]
    ensures IntIdentityColumn(Staged(m, IntIdentityWrites(c, xs)), c, keys + Elements(xs))
  {
    if xs == [] {
      assert keys + Elements(xs) == keys;
    } else {
      var n := |xs| - 1;
      assert IntIdentityWrites(c, xs)[..n] == IntIdentityWrites(c, xs[..n]);
      IntIdentityWritesStaged(m, c, keys, xs[..n]);
      IntIdentityPut(Staged(m, IntIdentityWrites(c, xs[..n])), c, keys + Elements(xs[..n]), xs[n]);
      assert xs == xs[..n] + [xs[n]];
      assert Elements(xs) == Elements(xs[..n]) + {xs[n]};
    }
  }

  /** Writes that do not touch column c leave it the identity column it was. */
  lemma {:induction false} IntIdentityElsewhere(m: map<StoreKey, Bytes>, c: nat, keys: set<int32>, ws: seq<Write>)
    requires IntIdentityColumn(m, c, keys)
    requires forall j | 0 <= j < |ws| :: !(ws[j].key.ColumnKey? && ws[j].key.column == c)
    ensures IntIdentityColumn(Staged(m, ws), c, keys)
  {
    if ws != [] {
      var n := |ws| - 1;
      IntIdentityElsewhere(m, c, keys, ws[..n]);
      var before := Staged(m, ws[..n]);
      assert forall x: int32 :: ColumnKey(c, SerializeInt(x)) != ws[n].key;
    }
  }

  /** Writes that touch no key of column c. */
  predicate OutsideColumn(ws: seq<Write>, c: nat)
  {
    forall j | 0 <= j < |ws| :: !(ws[j].key.ColumnKey? && ws[j].key.column == c)
  }

  /**
   * A fresh store after one batch whose only writes to column c are the
   * identity puts of xs: column c is the identity column of xs.
   */
  lemma IntIdentityAmong(data: map<StoreKey, Bytes>, ws: seq<Write>,
                         before: seq<Write>, c: nat, xs: seq<int32>, after: seq<Write>)
    requires forall i | 0 <= i < |xs| :: 0 <= xs[i]
    requires OutsideColumn(before, c) && OutsideColumn(after, c)
    requires ws == before + IntIdentityWrites(c, xs) + after
    requires data == map[] + Staged(map[], ws)
    ensures IntIdentityColumn(data, c, Elements(xs))
  {
    var w := IntIdentityWrites(c, xs);
    StagedConcat(map[], before + w, after);
    StagedConcat(map[], before, w);
    IntIdentityElsewhere(map[], c, {}, before);
    IntIdentityWritesStaged(Staged(map[], before), c, {}, xs);
    assert {} + Elements(xs) == Elements(xs);
    IntIdentityElsewhere(Staged(Staged(map[], before), w), c, Elements(xs), after);
    assert data == Staged(map[], ws);
  }

  /**
   * A stream over an identity column, between from and to, where the
   * stored keys in that range are exactly lo..hi, yields (lo, lo), ...,
   * (hi, hi).
   */
  lemma IntIdentityStream(data: map<StoreKey, Bytes>, c: nat, keys: set<int32>, from: int32, to: int32, lo: int32, hi: int32)
    requires IntIdentityColumn(data, c, keys)
    requires 0 <= from <= lo <= hi <= to
    requires forall x: int32 | from <= x <= to :: x in keys <==> lo <= x <= hi
    ensures DecodeEntries(IntColumn(c), OrderedEntries(data, c,
      RangeKeys(data, c, SerializeInt(from), SerializeInt(to)))) == Ok(IntIdentityEntries(lo, hi))
  {
    var es := IntStreamIsNumericRange(data, c, from, to);
    IntIdentityEntriesWithin(data, c, keys, from, to, lo, hi, es);
    IntIdentityEntriesCover(data, c, keys, from, to, lo, hi, es);
    IntIdentityEntriesFromKeys(es, lo, hi);
  }

  /** Entries read from an identity column within from..to map each key to itself and lie within lo..hi. */
  lemma IntIdentityEntriesWithin(data: map<StoreKey, Bytes>, c: nat, keys: set<int32>, from: int32, to: int32,
                                 lo: int32, hi: int32, es: seq<ColumnEntry<int32, int32>>)
    requires IntIdentityColumn(data, c, keys)
    requires 0 <= from && forall x: int32 | from <= x <= to :: x in keys <==> lo <= x <= hi
    requires forall i | 0 <= i < |es| ::
      && from <= es[i].key <= to
      && ColumnKey(c, SerializeInt(es[i].key)) in data
      && data[ColumnKey(c, SerializeInt(es[i].key))] == SerializeInt(es[i].value)
    ensures forall i | 0 <= i < |es| :: lo <= es[i].key <= hi && es[i].value == es[i].key
  {
    forall i | 0 <= i < |es| ensures lo <= es[i].key <= hi && es[i].value == es[i].key {
      assert es[i].key in keys;
      IntDecodesEncoding(es[i].key);
      IntDecodesEncoding(es[i].value);
    }
  }

  /** Every key of lo..hi in an identity column is found among the entries read from from..to. */
  lemma IntIdentityEntriesCover(data: map<StoreKey, Bytes>, c: nat, keys: set<int32>, from: int32, to: int32,
                                lo: int32, hi: int32, es: seq<ColumnEntry<int32, int32>>)
    requires IntIdentityColumn(data, c, keys)
    requires from <= lo && hi <= to
    requires forall x: int32 | from <= x <= to :: x in keys <==> lo <= x <= hi
    requires forall x: int32 | from <= x <= to && ColumnKey(c, SerializeInt(x)) in data ::
      exists i :: 0 <= i < |es| && es[i].key == x
    ensures forall x: int32 | lo <= x <= hi :: x in EntryKeys(es)
  {
    forall x: int32 | lo <= x <= hi ensures x in EntryKeys(es) {
      assert x in keys && ColumnKey(c, SerializeInt(x)) in data;
      var i :| 0 <= i < |es| && es[i].key == x;
      assert EntryKeys(es)[i] == x;
    }
  }

  function EntryKeys<K, V>(es: seq<ColumnEntry<K, V>>): seq<K>
  {
    seq(|es|, i requires 0 <= i < |es| => es[i].key)
  }

  /** Entries (x, x) with strictly increasing keys covering exactly lo..hi are (lo, lo), ..., (hi, hi). */
  lemma IntIdentityEntriesFromKeys(es: seq<ColumnEntry<int32, int32>>, lo: int32, hi: int32)
    requires lo <= hi
    requires forall i, j | 0 <= i < j < |es| :: es[i].key < es[j].key
    requires forall i | 0 <= i < |es| :: lo <= es[i].key <= hi && es[i].value == es[i].key
    requires forall x: int32 | lo <= x <= hi :: x in EntryKeys(es)
    ensures es == IntIdentityEntries(lo, hi)
  {
    var ks: seq<int> := EntryKeys(es);
    IncreasingCoverIsRange(ks, lo, hi);
    forall i | 0 <= i < |es| ensures es[i] == IntIdentityEntries(lo, hi)[i] {
      assert es[i].key == ks[i];
    }
  }

  /**
   * The floor of a non-negative x in an identity column is (y, y) for the
   * greatest key y at most x, or empty when every key exceeds x.
   */
  lemma IntIdentityFloor(data: map<StoreKey, Bytes>, c: nat, keys: set<int32>, x: int32,
                         r: Result<Option<ColumnEntry<int32, int32>>, Fault>)
    requires IntIdentityColumn(data, c, keys) && 0 <= x
    requires IsFloorResult(data, IntColumn(c), x, r)
    ensures r.Ok?
    ensures r.value.None? <==> forall z | z in keys :: x < z
    ensures r.value.Some? ==>
      && r.value.value.key == r.value.value.value
      && r.value.value.key in keys && r.value.value.key <= x
      && forall z | z in keys && z <= x :: z <= r.value.value.key
  {
    IntFloorAbsent(data, c, x);
    var below := Below(data, c, SerializeInt(x));
    if r.Err? {
      var fk :| IsGreatest(fk, below) && DecodeEntry(IntColumn(c), ColumnEntry(fk, data[ColumnKey(c, fk)])).Err?;
      IntIdentityFloorEntry(data, c, keys, x, fk);
    } else if r.value.Some? {
      var fk :| IsGreatest(fk, below) && DecodeEntry(IntColumn(c), ColumnEntry(fk, data[ColumnKey(c, fk)])) == Ok(r.value.value);
      IntIdentityFloorEntry(data, c, keys, x, fk);
    }
  }

  lemma IntIdentityFloorEntry(data: map<StoreKey, Bytes>, c: nat, keys: set<int32>, x: int32, fk: Bytes)
    requires IntIdentityColumn(data, c, keys) && 0 <= x
    requires IsGreatest(fk, Below(data, c, SerializeInt(x)))
    ensures var y := DeserializeInt(fk).value;
      && DecodeEntry(IntColumn(c), ColumnEntry(fk, data[ColumnKey(c, fk)])) == Ok(ColumnEntry(y, y))
      && y in keys && y <= x
      && forall z | z in keys && z <= x :: z <= y
  {
    IntFloorIsPredecessor(data, c, x, fk);
    var y := DeserializeInt(fk).value;
    IntDecodesEncoding(y);
  }

  // ------------------------------------------------------------------
  // Identity columns of UInt64s

  /** lo, lo + 1, ..., hi (empty when hi < lo). */
  function UInt64Range(lo: uint64, hi: uint64): seq<uint64>
  {
    seq(if hi < lo then 0 else hi - lo + 1, i requires 0 <= i <= hi - lo => (lo + i) as uint64)
  }

  lemma UInt64RangeMembers(lo: uint64, hi: uint64)
    ensures forall x: uint64 :: x in UInt64Range(lo, hi) <==> lo <= x <= hi
  {
    forall x: uint64 | lo <= x <= hi ensures x in UInt64Range(lo, hi) {
      assert UInt64Range(lo, hi)[x - lo] == x;
    }
  }

  /** put(column c, x, x) for each UInt64 x of xs, in order. */
  function UInt64IdentityWrites(c: nat, xs: seq<uint64>): seq<Write>
  {
    seq(|xs|, i requires 0 <= i < |xs| => ColumnWrite(UInt64Column(c), xs[i], xs[i]))
  }

  /** Column c holds exactly the UInt64s of `keys`, each stored under itself. */
  ghost predicate UInt64IdentityColumn(data: map<StoreKey, Bytes>, c: nat, keys: set<uint64>)
  {
    && HoldsUInt64s(data, c)
    && (forall x: uint64 :: ColumnKey(c, SerializeUInt64(x)) in data <==> x in keys)
    && (forall x | x in keys :: ColumnKey(c, SerializeUInt64(x)) in data
          && data[ColumnKey(c, SerializeUInt64(x))] == SerializeUInt64(x))
  }

  lemma UInt64IdentityPut(m: map<StoreKey, Bytes>, c: nat, keys: set<uint64>, x: uint64)
    requires UInt64IdentityColumn(m, c, keys)
    ensures UInt64IdentityColumn(m[ColumnKey(c, SerializeUInt64(x)) := SerializeUInt64(x)], c, keys + {x})
  {
    UInt64Width(x);
    forall z: uint64 ensures SerializeUInt64(z) == SerializeUInt64(x) <==> z == x {
      UInt64OrderPreserving(z, x);
    }
  }

  /** A batch of UInt64 identity puts into column c adds its keys to c's identity set. */
  lemma {:induction false} UInt64IdentityWritesStaged(m: map<StoreKey, Bytes>, c: nat, keys: set<uint64>, xs: seq<uint64>)
    requires UInt64IdentityColumn(m, c, keys)
    ensures UInt64IdentityColumn(Staged(m, UInt64IdentityWrites(c, xs)), c, keys + Elements(xs))
  {
    if xs == [] {
      assert keys + Elements(xs) == keys;
    } else {
      var n := |xs| - 1;
      assert UInt64IdentityWrites(c, xs)[..n] == UInt64IdentityWrites(c, xs[..n]);
      UInt64IdentityWritesStaged(m, c, keys, xs[..n]);
      UInt64IdentityPut(Staged(m, UInt64IdentityWrites(c, xs[..n])), c, keys + Elements(xs[..n]), xs[n]);
      assert xs == xs[..n] + [xs[n]];
      assert Elements(xs) == Elements(xs[..n]) + {xs[n]};
    }
  }

  /**
   * stream(c, from, to) on a fresh store after identity puts of xs into
   * UInt64 column c, where xs covers every number from `from` to `to`:
   * the keys come out as from, from + 1, ..., to.
   */
  lemma FreshUInt64Stream(data: map<StoreKey, Bytes>, c: nat, xs: seq<uint64>, from: uint64, to: uint64,
                          r: Result<seq<ColumnEntry<uint64, uint64>>, Fault>)
    requires data == map[] + Staged(map[], UInt64IdentityWrites(c, xs))
    requires from <= to && forall x: uint64 | from <= x <= to :: x in Elements(xs)
    requires r == DecodeEntries(UInt64Column(c), OrderedEntries(data, c,
      RangeKeys(data, c, SerializeUInt64(from), SerializeUInt64(to))))
    ensures r.Ok? && EntryKeys(r.value) == UInt64Range(from, to)
  {
    UInt64IdentityFresh(data, c, xs);
    assert forall x: uint64 | from <= x <= to :: ColumnKey(c, SerializeUInt64(x)) in data;
    var es := UInt64StreamIsNumericRange(data, c, from, to);
    UInt64KeysFromFound(data, c, es, from, to);
  }

  /**
   * Entries whose keys ascend within from..to, where column c stores every
   * number of from..to and each stored one is some entry's key, have the
   * keys from, ..., to.
   */
  lemma UInt64KeysFromFound(data: map<StoreKey, Bytes>, c: nat, es: seq<ColumnEntry<uint64, uint64>>, from: uint64, to: uint64)
    requires from <= to
    requires forall i, j | 0 <= i < j < |es| :: es[i].key < es[j].key
    requires forall i | 0 <= i < |es| :: from <= es[i].key <= to
    requires forall x: uint64 | from <= x <= to :: ColumnKey(c, SerializeUInt64(x)) in data
    requires forall x: uint64 | from <= x <= to && ColumnKey(c, SerializeUInt64(x)) in data ::
      exists i :: 0 <= i < |es| && es[i].key == x
    ensures EntryKeys(es) == UInt64Range(from, to)
  {
    forall x: uint64 | from <= x <= to ensures x in EntryKeys(es) {
      assert ColumnKey(c, SerializeUInt64(x)) in data;
      var i :| 0 <= i < |es| && es[i].key == x;
      assert EntryKeys(es)[i] == x;
    }
    UInt64KeysFromCover(es, from, to);
  }

  lemma UInt64IdentityFresh(data: map<StoreKey, Bytes>, c: nat, xs: seq<uint64>)
    requires data == map[] + Staged(map[], UInt64IdentityWrites(c, xs))
    ensures UInt64IdentityColumn(data, c, Elements(xs))
  {
    UInt64IdentityWritesStaged(map[], c, {}, xs);
    assert data == Staged(map[], UInt64IdentityWrites(c, xs));
    assert {} + Elements(xs) == Elements(xs);
  }

  /** Entries with strictly increasing keys in from..to that cover from..to have the keys from, ..., to. */
  lemma UInt64KeysFromCover(es: seq<ColumnEntry<uint64, uint64>>, from: uint64, to: uint64)
    requires from <= to
    requires forall i, j | 0 <= i < j < |es| :: es[i].key < es[j].key
    requires forall i | 0 <= i < |es| :: from <= es[i].key <= to
    requires forall x: uint64 | from <= x <= to :: x in EntryKeys(es)
    ensures EntryKeys(es) == UInt64Range(from, to)
  {
    var ks: seq<int> := EntryKeys(es);
    IncreasingCoverIsRange(ks, from, to);
  }

  // ------------------------------------------------------------------
  // Point reads

  /**
   * One transaction puts (0, 0) and (1, 1) in column 1, (1, 2) in column 2
   * and (0, 3) in column 3; each column then answers for its own keys only.
   */
  method StoreAndLoadSimpleKey() returns (c1k0: Result<Option<int32>, Fault>, c1k1: Result<Option<int32>, Fault>,
                                          c1k2: Result<Option<int32>, Fault>, c2k0: Result<Option<int32>, Fault>,
                                          c2k1: Result<Option<int32>, Fault>, c3k0: Result<Option<int32>, Fault>,
                                          c3k1: Result<Option<int32>, Fault>)
    ensures c1k0 == Ok(Some(0)) && c1k1 == Ok(Some(1)) && c1k2 == Ok(None)
    ensures c2k0 == Ok(None) && c2k1 == Ok(Some(2))
    ensures c3k0 == Ok(Some(3)) && c3k1 == Ok(None)
  {
    var store := new KvStoreAccessor();
    store.Update(SimpleKeyWrites());
    SimpleKeyColumn1(store);
    SimpleKeyColumn2(store);
    SimpleKeyColumn3(store);
    c1k0 := store.Get(COLUMN_1, 0);
    c1k1 := store.Get(COLUMN_1, 1);
    c1k2 := store.Get(COLUMN_1, 2);
    c2k0 := store.Get(COLUMN_2, 0);
    c2k1 := store.Get(COLUMN_2, 1);
    c3k0 := store.Get(COLUMN_3, 0);
    c3k1 := store.Get(COLUMN_3, 1);
  }

  function SimpleKeyWrites(): seq<Write>
  {
    [ColumnWrite(COLUMN_1, 0, 0), ColumnWrite(COLUMN_1, 1, 1), ColumnWrite(COLUMN_2, 1, 2), ColumnWrite(COLUMN_3, 0, 3)]
  }

  lemma SimpleKeyColumn1(store: KvStoreAccessor)
    requires store.data == map[] + Staged(map[], SimpleKeyWrites())
    ensures store.Get(COLUMN_1, 0) == Ok(Some(0)) && store.Get(COLUMN_1, 1) == Ok(Some(1))
    ensures store.Get(COLUMN_1, 2) == Ok(None)
  {
    SimpleKeyColumn1First(store);
    SimpleKeyColumn1Second(store);
    SimpleKeyColumn1Miss(store);
  }

  lemma SimpleKeyColumn1First(store: KvStoreAccessor)
    requires store.data == map[] + Staged(map[], SimpleKeyWrites())
    ensures store.Get(COLUMN_1, 0) == Ok(Some(0))
  {
    IntOrderPreservingOnNonNegatives(0, 1);
    IntDecodesEncoding(0);
    ReadsLastCommittedPut(store, map[], SimpleKeyWrites(), 0, COLUMN_1, 0, 0);
  }

  lemma SimpleKeyColumn1Second(store: KvStoreAccessor)
    requires store.data == map[] + Staged(map[], SimpleKeyWrites())
    ensures store.Get(COLUMN_1, 1) == Ok(Some(1))
  {
    IntDecodesEncoding(1);
    ReadsLastCommittedPut(store, map[], SimpleKeyWrites(), 1, COLUMN_1, 1, 1);
  }

  lemma SimpleKeyColumn1Miss(store: KvStoreAccessor)
    requires store.data == map[] + Staged(map[], SimpleKeyWrites())
    ensures store.Get(COLUMN_1, 2) == Ok(None)
  {
    IntOrderPreservingOnNonNegatives(0, 2);
    IntOrderPreservingOnNonNegatives(1, 2);
    UnwrittenKeyReadsAsBefore(store, map[], SimpleKeyWrites(), COLUMN_1, 2);
  }

  lemma SimpleKeyColumn2(store: KvStoreAccessor)
    requires store.data == map[] + Staged(map[], SimpleKeyWrites())
    ensures store.Get(COLUMN_2, 0) == Ok(None) && store.Get(COLUMN_2, 1) == Ok(Some(2))
  {
    var ws := SimpleKeyWrites();
    IntOrderPreservingOnNonNegatives(0, 1);
    IntDecodesEncoding(2);
    ReadsLastCommittedPut(store, map[], ws, 2, COLUMN_2, 1, 2);
    UnwrittenKeyReadsAsBefore(store, map[], ws, COLUMN_2, 0);
  }

  lemma SimpleKeyColumn3(store: KvStoreAccessor)
    requires store.data == map[] + Staged(map[], SimpleKeyWrites())
    ensures store.Get(COLUMN_3, 0) == Ok(Some(3)) && store.Get(COLUMN_3, 1) == Ok(None)
  {
    var ws := SimpleKeyWrites();
    IntOrderPreservingOnNonNegatives(0, 1);
    IntDecodesEncoding(3);
    ReadsLastCommittedPut(store, map[], ws, 3, COLUMN_3, 0, 3);
    UnwrittenKeyReadsAsBefore(store, map[], ws, COLUMN_3, 1);
  }

  /**
   * Variables read empty before any write; after one transaction puts 0
   * in variable 1 and 1 in variable 2, each reads back its own value.
   */
  method StoreAndLoadVariables() returns (before1: Result<Option<int32>, Fault>, before2: Result<Option<int32>, Fault>,
                                          after1: Result<Option<int32>, Fault>, after2: Result<Option<int32>, Fault>)
    ensures before1 == Ok(None) && before2 == Ok(None)
    ensures after1 == Ok(Some(0)) && after2 == Ok(Some(1))
  {
    var store := new KvStoreAccessor();
    before1 := store.GetVariable(VARIABLE_1);
    before2 := store.GetVariable(VARIABLE_2);
    var tx := store.StartTransaction();
    var ok := tx.PutVariable(VARIABLE_1, 0);
    ok := tx.PutVariable(VARIABLE_2, 1);
    ok := tx.Commit();
    tx.Close();
    IntDecodesEncoding(0);
    IntDecodesEncoding(1);
    after1 := store.GetVariable(VARIABLE_1);
    after2 := store.GetVariable(VARIABLE_2);
  }

  /**
   * A raw put of any 8 bytes into the UInt64 variable reads back as those
   * bytes, and typed as the UInt64 they spell big-endian.
   */
  method PutRawThenGet(byteData: Bytes) returns (typed: Result<Option<uint64>, Fault>, raw: Option<Bytes>)
    requires |byteData| == 8
    ensures typed == Ok(Some(DecodeBE(byteData)))
    ensures raw == Some(byteData)
  {
    var store := new KvStoreAccessor();
    store.Update([Write(VariableKey(VARIABLE_3.id), byteData)]);
    assert byteData[..8] == byteData;
    typed := store.GetVariable(VARIABLE_3);
    raw := store.GetVariableRaw(VARIABLE_3);
  }

  /**
   * After putting (0, data) in the UInt64 column, the typed read gives data
   * back and the raw stream holds the one entry (eight zero bytes, data's
   * eight bytes).
   */
  method StreamRawGetsBytes(data: uint64) returns (typed: Result<Option<uint64>, Fault>, raws: seq<RawEntry>)
    ensures typed == Ok(Some(data))
    ensures raws == [ColumnEntry([0, 0, 0, 0, 0, 0, 0, 0], SerializeUInt64(data))]
  {
    var store := new KvStoreAccessor();
    store.Update([ColumnWrite(COLUMN_4, 0, data)]);
    UInt64RoundTrip();
    typed := store.Get(COLUMN_4, 0);
    raws := store.StreamRaw(COLUMN_4);
    UInt64ZeroIsEightZeroBytes();
    SingleEntryColumn(store.data, 4, SerializeUInt64(0), SerializeUInt64(data));
  }

  /**
   * UInt64 keys 499..655 in column 4, streamed from 500 to 650: the keys
   * 500, ..., 650 in numeric order. A comparison of signed bytes would
   * stop early in this range (Serializers.SignedComparisonMisorders).
   */
  method StreamUnsignedKeys() returns (r: Result<seq<ColumnEntry<uint64, uint64>>, Fault>)
    ensures r.Ok? && EntryKeys(r.value) == UInt64Range(500, 650)
  {
    var xs := UInt64Range(499, 655);
    UInt64RangeMembers(499, 655);
    assert forall x :: x in Elements(xs) <==> x in xs;
    var store := new KvStoreAccessor();
    store.Update(UInt64IdentityWrites(4, xs));
    r := store.Stream(COLUMN_4, 500, 650);
    FreshUInt64Stream(store.data, 4, xs, 500, 650, r);
  }

  /** A column holding one entry streams as exactly that entry. */
  lemma SingleEntryColumn(data: map<StoreKey, Bytes>, c: nat, k: Bytes, v: Bytes)
    requires ColumnKeys(data, c) == {k} && data[ColumnKey(c, k)] == v
    ensures OrderedEntries(data, c, ColumnKeys(data, c)) == [ColumnEntry(k, v)]
  {
    OrderedEntriesExact(data, c, {k});
  }

  // ------------------------------------------------------------------
  // Range streams

  /**
   * stream(c, from, to) on a fresh store after one batch whose only writes
   * to column c are the identity puts of xs, where the keys of xs between
   * from and to are exactly lo..hi: the entries (lo, lo), ..., (hi, hi).
   */
  lemma FreshStream(data: map<StoreKey, Bytes>, ws: seq<Write>, before: seq<Write>, c: nat, xs: seq<int32>, after: seq<Write>,
                    from: int32, to: int32, lo: int32, hi: int32, r: Result<seq<ColumnEntry<int32, int32>>, Fault>)
    requires forall i | 0 <= i < |xs| :: 0 <= xs[i]
    requires OutsideColumn(before, c) && OutsideColumn(after, c)
    requires ws == before + IntIdentityWrites(c, xs) + after
    requires data == map[] + Staged(map[], ws)
    requires 0 <= from <= lo <= hi <= to
    requires forall x: int32 | from <= x <= to :: x in xs <==> lo <= x <= hi
    requires r == DecodeEntries(IntColumn(c), OrderedEntries(data, c,
      RangeKeys(data, c, SerializeInt(from), SerializeInt(to))))
    ensures r == Ok(IntIdentityEntries(lo, hi))
  {
    IntIdentityAmong(data, ws, before, c, xs, after);
    assert forall z :: z in Elements(xs) <==> z in xs;
    IntIdentityStream(data, c, Elements(xs), from, to, lo, hi);
  }

  /**
   * FreshStream for a batch that puts the whole range a..b into column c:
   * streaming from..to yields the entries of the overlap of the two ranges.
   */
  lemma FreshRangeStream(data: map<StoreKey, Bytes>, ws: seq<Write>, before: seq<Write>, c: nat, a: int32, b: int32,
                         after: seq<Write>, from: int32, to: int32, r: Result<seq<ColumnEntry<int32, int32>>, Fault>)
    requires 0 <= a <= b && 0 <= from <= to && from <= b && a <= to
    requires OutsideColumn(before, c) && OutsideColumn(after, c)
    requires ws == before + IntIdentityWrites(c, IntRange(a, b)) + after
    requires data == map[] + Staged(map[], ws)
    requires r == DecodeEntries(IntColumn(c), OrderedEntries(data, c,
      RangeKeys(data, c, SerializeInt(from), SerializeInt(to))))
    ensures r == Ok(IntIdentityEntries(if a < from then from else a, if to < b then to else b))
  {
    IntRangeMembers(a, b);
    var lo: int32 := if a < from then from else a;
    var hi: int32 := if to < b then to else b;
    assert forall i | 0 <= i < |IntRange(a, b)| :: 0 <= IntRange(a, b)[i] by {
      forall i | 0 <= i < |IntRange(a, b)| ensures 0 <= IntRange(a, b)[i] {
        assert IntRange(a, b)[i] in IntRange(a, b);
      }
    }
    FreshStream(data, ws, before, c, IntRange(a, b), after, from, to, lo, hi, r);
  }

  /** Keys 0..9 in column 1, streamed from 2 to 8: (2, 2), ..., (8, 8). */
  method StreamMiddleOfColumn() returns (r: Result<seq<ColumnEntry<int32, int32>>, Fault>)
    ensures r == Ok(IntIdentityEntries(2, 8))
  {
    var store := new KvStoreAccessor();
    var ws := IntIdentityWrites(1, IntRange(0, 9));
    store.Update(ws);
    r := store.Stream(COLUMN_1, 2, 8);
    FreshRangeStream(store.data, ws, [], 1, 0, 9, [], 2, 8, r);
  }

  /** Keys 0..9 in column 1, streamed from 0 to 9: all of them. */
  method StreamWholeColumn() returns (r: Result<seq<ColumnEntry<int32, int32>>, Fault>)
    ensures r == Ok(IntIdentityEntries(0, 9))
  {
    var store := new KvStoreAccessor();
    var ws := IntIdentityWrites(1, IntRange(0, 9));
    store.Update(ws);
    r := store.Stream(COLUMN_1, 0, 9);
    FreshRangeStream(store.data, ws, [], 1, 0, 9, [], 0, 9, r);
  }

  /** Keys 2..7 in column 1, streamed from 0 to 10: all of them. */
  method StreamBeyondStoredRange() returns (r: Result<seq<ColumnEntry<int32, int32>>, Fault>)
    ensures r == Ok(IntIdentityEntries(2, 7))
  {
    var store := new KvStoreAccessor();
    var ws := IntIdentityWrites(1, IntRange(2, 7));
    store.Update(ws);
    r := store.Stream(COLUMN_1, 0, 10);
    FreshRangeStream(store.data, ws, [], 1, 2, 7, [], 0, 10, r);
  }

  /**
   * Keys 2..7 in column 2, between columns 1 and 3 that also hold keys in
   * 0..10 and beside two variables, streamed from 0 to 10: only column 2's
   * entries.
   */
  method StreamMiddleColumn() returns (r: Result<seq<ColumnEntry<int32, int32>>, Fault>)
    ensures r == Ok(IntIdentityEntries(2, 7))
  {
    var store := new KvStoreAccessor();
    var before := IntIdentityWrites(1, [5, 6]);
    var after := IntIdentityWrites(3, [0, 8]) + [VariableWrite(VARIABLE_1, 6), VariableWrite(VARIABLE_2, 7)];
    var ws := before + IntIdentityWrites(2, IntRange(2, 7)) + after;
    store.Update(ws);
    r := store.Stream(COLUMN_2, 0, 10);
    FreshRangeStream(store.data, ws, before, 2, 2, 7, after, 0, 10, r);
  }

  // ------------------------------------------------------------------
  // Floor lookups

  /** The answer getFloorEntry gives on an identity column whose floor key is y. */
  function IdentityEntry(y: Option<int32>): Option<ColumnEntry<int32, int32>>
  {
    if y.Some? then Some(ColumnEntry(y.value, y.value)) else None
  }

  /**
   * On an identity column holding the non-negative keys xs, getFloorEntry(x)
   * answers (y, y) for the greatest y of xs at most x, and empty when there
   * is none.
   */
  lemma IntIdentityFloorOf(data: map<StoreKey, Bytes>, c: nat, xs: seq<int32>, x: int32,
                           r: Result<Option<ColumnEntry<int32, int32>>, Fault>, y: Option<int32>)
    requires IntIdentityColumn(data, c, Elements(xs))
    requires 0 <= x && IsFloorResult(data, IntColumn(c), x, r)
    requires y.None? ==> forall z | z in xs :: x < z
    requires y.Some? ==> y.value in xs && y.value <= x && forall z | z in xs && z <= x :: z <= y.value
    ensures r == Ok(IdentityEntry(y))
  {
    assert forall z :: z in Elements(xs) <==> z in xs;
    IntIdentityFloorIs(data, c, Elements(xs), x, r, y);
  }

  lemma IntIdentityFloorIs(data: map<StoreKey, Bytes>, c: nat, keys: set<int32>, x: int32,
                           r: Result<Option<ColumnEntry<int32, int32>>, Fault>, y: Option<int32>)
    requires IntIdentityColumn(data, c, keys)
    requires 0 <= x && IsFloorResult(data, IntColumn(c), x, r)
    requires y.None? ==> forall z | z in keys :: x < z
    requires y.Some? ==> y.value in keys && y.value <= x && forall z | z in keys && z <= x :: z <= y.value
    ensures r == Ok(if y.Some? then Some(ColumnEntry(y.value, y.value)) else None)
  {
    IntIdentityFloor(data, c, keys, x, r);
    FloorAnswerIsUnique(keys, x, r.value, y);
  }

  /** Two descriptions of the greatest key at most x agree: the entry found and y. */
  lemma FloorAnswerIsUnique(keys: set<int32>, x: int32, e: Option<ColumnEntry<int32, int32>>, y: Option<int32>)
    requires e.None? <==> forall z | z in keys :: x < z
    requires e.Some? ==>
      && e.value.key == e.value.value
      && e.value.key in keys && e.value.key <= x
      && forall z | z in keys && z <= x :: z <= e.value.key
    requires y.None? ==> forall z | z in keys :: x < z
    requires y.Some? ==> y.value in keys && y.value <= x && forall z | z in keys && z <= x :: z <= y.value
    ensures e == (if y.Some? then Some(ColumnEntry(y.value, y.value)) else None)
  {
    if e.Some? {
      var k := e.value.key;
      assert k in keys;
      assert y.Some?;
      assert k <= y.value && y.value <= k;
    }
  }

  /**
   * getFloorEntry(x) on column c of a fresh store after one batch whose
   * only writes to c are the identity puts of xs: (y, y) for the greatest
   * y of xs at most x, or empty when there is none.
   */
  lemma FreshFloor(data: map<StoreKey, Bytes>, ws: seq<Write>, before: seq<Write>, c: nat, xs: seq<int32>, after: seq<Write>,
                   x: int32, r: Result<Option<ColumnEntry<int32, int32>>, Fault>, y: Option<int32>)
    requires FloorCase(ws, before, c, xs, after, x, y)
    requires data == map[] + Staged(map[], ws)
    requires IsFloorResult(data, IntColumn(c), x, r)
    ensures r == Ok(IdentityEntry(y))
  {
    IntIdentityAmong(data, ws, before, c, xs, after);
    IntIdentityFloorOf(data, c, xs, x, r, y);
  }

  /**
   * What a floor scenario fixes before any store exists: the batch ws puts
   * the non-negative keys xs into column c and nothing else there, and y is
   * the greatest of them at most x, or None when every one exceeds x.
   */
  ghost predicate FloorCase(ws: seq<Write>, before: seq<Write>, c: nat, xs: seq<int32>, after: seq<Write>,
                            x: int32, y: Option<int32>)
  {
    && (forall i | 0 <= i < |xs| :: 0 <= xs[i])
    && OutsideColumn(before, c) && OutsideColumn(after, c)
    && ws == before + IntIdentityWrites(c, xs) + after
    && 0 <= x
    && (y.None? ==> forall z | z in xs :: x < z)
    && (y.Some? ==> y.value in xs && y.value <= x && forall z | z in xs && z <= x :: z <= y.value)
  }

  /** Identity puts into column c write nothing into any other column. */
  lemma IdentityWritesStayInColumn(c: nat, xs: seq<int32>, d: nat)
    requires c != d
    ensures OutsideColumn(IntIdentityWrites(c, xs), d)
  {
  }

  /** Floor of 3 among keys 1, 2, 3, 4 of column 1: the exact match (3, 3). */
  method FloorWhenKeyExists() returns (r: Result<Option<ColumnEntry<int32, int32>>, Fault>)
    ensures r == Ok(Some(ColumnEntry(3, 3)))
  {
    var xs: seq<int32> := [1, 2, 3, 4];
    var ws := IntIdentityWrites(1, xs);
    assert FloorCase(ws, [], 1, xs, [], 3, Some(3));
    var store := new KvStoreAccessor();
    store.Update(ws);
    r := store.GetFloorEntry(COLUMN_1, 3);
    FreshFloor(store.data, ws, [], 1, xs, [], 3, r, Some(3));
  }

  /** Floor of 3 among keys 1 and 4: the closest prior entry (1, 1). */
  method FloorWhenKeyMissing() returns (r: Result<Option<ColumnEntry<int32, int32>>, Fault>)
    ensures r == Ok(Some(ColumnEntry(1, 1)))
  {
    var xs: seq<int32> := [1, 4];
    var ws := IntIdentityWrites(1, xs);
    assert FloorCase(ws, [], 1, xs, [], 3, Some(1));
    var store := new KvStoreAccessor();
    store.Update(ws);
    r := store.GetFloorEntry(COLUMN_1, 3);
    FreshFloor(store.data, ws, [], 1, xs, [], 3, r, Some(1));
  }

  /** Floor of 2 among keys 3 and 4: nothing. */
  method FloorWhenNoPriorKey() returns (r: Result<Option<ColumnEntry<int32, int32>>, Fault>)
    ensures r == Ok(None)
  {
    var xs: seq<int32> := [3, 4];
    var ws := IntIdentityWrites(1, xs);
    assert FloorCase(ws, [], 1, xs, [], 2, None);
    var store := new KvStoreAccessor();
    store.Update(ws);
    r := store.GetFloorEntry(COLUMN_1, 2);
    FreshFloor(store.data, ws, [], 1, xs, [], 2, r, None);
  }

  /**
   * Floor of 2 in column 2 holding 3 and 4: nothing, although column 1
   * holds 1, which is below 2.
   */
  method FloorWhenNoPriorKeyInColumn() returns (r: Result<Option<ColumnEntry<int32, int32>>, Fault>)
    ensures r == Ok(None)
  {
    var xs1: seq<int32> := [1, 4];
    var xs2: seq<int32> := [3, 4];
    var ws := IntIdentityWrites(1, xs1) + IntIdentityWrites(2, xs2);
    IdentityWritesStayInColumn(1, xs1, 2);
    assert FloorCase(ws, IntIdentityWrites(1, xs1), 2, xs2, [], 2, None);
    var store := new KvStoreAccessor();
    store.Update(ws);
    r := store.GetFloorEntry(COLUMN_2, 2);
    FreshFloor(store.data, ws, IntIdentityWrites(1, xs1), 2, xs2, [], 2, r, None);
  }

  /**
   * Floor of 5 in column 1 holding 1 and 4: the last entry (4, 4), though
   * column 2 follows with further keys.
   */
  method FloorAfterLastKeyInColumn() returns (r: Result<Option<ColumnEntry<int32, int32>>, Fault>)
    ensures r == Ok(Some(ColumnEntry(4, 4)))
  {
    var xs1: seq<int32> := [1, 4];
    var xs2: seq<int32> := [3, 4];
    var ws := IntIdentityWrites(1, xs1) + IntIdentityWrites(2, xs2);
    IdentityWritesStayInColumn(2, xs2, 1);
    assert FloorCase(ws, [], 1, xs1, IntIdentityWrites(2, xs2), 5, Some(4));
    var store := new KvStoreAccessor();
    store.Update(ws);
    r := store.GetFloorEntry(COLUMN_1, 5);
    FreshFloor(store.data, ws, [], 1, xs1, IntIdentityWrites(2, xs2), 5, r, Some(4));
  }

  /** Floor of 5 in column 1 holding 1 and 4, the last keys of the store: (4, 4). */
  method FloorAfterLastKeyInStore() returns (r: Result<Option<ColumnEntry<int32, int32>>, Fault>)
    ensures r == Ok(Some(ColumnEntry(4, 4)))
  {
    var xs: seq<int32> := [1, 4];
    var ws := IntIdentityWrites(1, xs);
    assert FloorCase(ws, [], 1, xs, [], 5, Some(4));
    var store := new KvStoreAccessor();
    store.Update(ws);
    r := store.GetFloorEntry(COLUMN_1, 5);
    FreshFloor(store.data, ws, [], 1, xs, [], 5, r, Some(4));
  }
}
