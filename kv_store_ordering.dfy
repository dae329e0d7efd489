/**
 * What the store's byte order means for typed keys: in a column keyed by
 * 8-byte big-endian UInt64s, or by 4-byte ints that are not negative, a
 * range stream is exactly the numeric range in numeric order, and the
 * floor entry is the numeric predecessor.
 * Also the column-level facts that do not depend on the key type: other
 * columns and variables never show up in a column's reads, the floor of a
 * stored key is that key, and a range wider than the stored keys is the
 * whole column.
 */
module KvStoreOrdering {
  import opened Wrappers
  import opened Unsigned
  import opened ByteOrder
  import opened Serializers
  import opened KvStore

  function UInt64Column(c: nat): Column<uint64, uint64>
  {
    Column(c, UInt64Serializer, UInt64Serializer)
  }

  /** Column c holds only 8-byte keys and values, as typed UInt64 puts leave it. */
  ghost predicate HoldsUInt64s(data: map<StoreKey, Bytes>, c: nat)
  {
    forall sk | sk in data && sk.ColumnKey? && sk.column == c :: |sk.key| == 8 && |data[sk]| == 8
  }

  // ------------------------------------------------------------------
  // Facts about any column

  /** A write outside column c (another column or a variable) changes none of c's reads. */
  lemma {:induction false} WritesElsewhereInvisible(data: map<StoreKey, Bytes>, c: nat, sk: StoreKey, v: Bytes, kb: Bytes)
    requires !(sk.ColumnKey? && sk.column == c)
    ensures ColumnKeys(data[sk := v], c) == ColumnKeys(data, c)
    ensures Below(data[sk := v], c, kb) == Below(data, c, kb)
    ensures forall k | ColumnKey(c, k) in data :: data[sk := v][ColumnKey(c, k)] == data[ColumnKey(c, k)]
  {
    assert forall k :: ColumnKey(c, k) in data[sk := v] <==> ColumnKey(c, k) in data;
  }

  /** A stored key is its own floor: getFloorEntry returns the exact match. */
  lemma {:induction false} FloorOfStoredKeyIsItself(data: map<StoreKey, Bytes>, c: nat, kb: Bytes)
    requires ColumnKey(c, kb) in data
    ensures IsGreatest(kb, Below(data, c, kb))
  {
    LexLeReflexive(kb);
  }

  /** Past the last key of a column, the floor is that last key. */
  lemma {:induction false} FloorPastTheEnd(data: map<StoreKey, Bytes>, c: nat, last: Bytes, kb: Bytes)
    requires IsGreatest(last, ColumnKeys(data, c))
    requires LexLe(last, kb)
    ensures IsGreatest(last, Below(data, c, kb))
  {
    forall k | k in ColumnKeys(data, c) ensures LexLe(k, kb) {
      LexLeTransitive(k, last, kb);
    }
    assert Below(data, c, kb) == ColumnKeys(data, c);
  }

  /** A range that covers every stored key of a column streams the whole column. */
  lemma WideRangeIsWholeColumn(data: map<StoreKey, Bytes>, c: nat, from: Bytes, to: Bytes)
    requires forall k | k in ColumnKeys(data, c) :: InRange(k, from, to)
    ensures RangeKeys(data, c, from, to) == ColumnKeys(data, c)
  {
  }

  // ------------------------------------------------------------------
  // UInt64-keyed columns

  /** The keys stored in an 8-byte column are exactly the encodings of UInt64s. */
  lemma StoredUInt64Key(data: map<StoreKey, Bytes>, c: nat, k: Bytes)
    requires HoldsUInt64s(data, c) && ColumnKey(c, k) in data
    ensures DeserializeUInt64(k).Some? && SerializeUInt64(DeserializeUInt64(k).value) == k
  {
    UInt64Canonical(k);
  }

  /** Entries read from an 8-byte column all decode, to the UInt64s their bytes encode. */
  lemma UInt64EntriesDecode(data: map<StoreKey, Bytes>, c: nat, raws: seq<RawEntry>)
    returns (es: seq<ColumnEntry<uint64, uint64>>)
    requires HoldsUInt64s(data, c)
    requires forall i | 0 <= i < |raws| ::
      ColumnKey(c, raws[i].key) in data && raws[i].value == data[ColumnKey(c, raws[i].key)]
    ensures DecodeEntries(UInt64Column(c), raws) == Ok(es) && |es| == |raws|
    ensures forall i | 0 <= i < |raws| ::
      SerializeUInt64(es[i].key) == raws[i].key && SerializeUInt64(es[i].value) == raws[i].value
  {
    var col := UInt64Column(c);
    forall i | 0 <= i < |raws|
      ensures DecodeEntry(col, raws[i]) == Ok(ColumnEntry(DeserializeUInt64(raws[i].key).value, DeserializeUInt64(raws[i].value).value))
      ensures SerializeUInt64(DeserializeUInt64(raws[i].key).value) == raws[i].key
      ensures SerializeUInt64(DeserializeUInt64(raws[i].value).value) == raws[i].value
    {
      StoredUInt64Key(data, c, raws[i].key);
      UInt64Canonical(raws[i].value);
    }
    es := DecodeEntries(col, raws).value;
  }

  /**
   * A typed stream over a UInt64 column from `from` to `to` yields exactly
   * the stored keys x with from <= x <= to, strictly ascending as numbers,
   * each with its stored value.
   */
  lemma UInt64StreamIsNumericRange(data: map<StoreKey, Bytes>, c: nat, from: uint64, to: uint64)
    returns (es: seq<ColumnEntry<uint64, uint64>>)
    requires HoldsUInt64s(data, c)
    ensures DecodeEntries(UInt64Column(c), OrderedEntries(data, c, RangeKeys(data, c, SerializeUInt64(from), SerializeUInt64(to)))) == Ok(es)
    ensures forall i, j | 0 <= i < j < |es| :: es[i].key < es[j].key
    ensures forall i | 0 <= i < |es| ::
      && from <= es[i].key <= to
      && ColumnKey(c, SerializeUInt64(es[i].key)) in data
      && data[ColumnKey(c, SerializeUInt64(es[i].key))] == SerializeUInt64(es[i].value)
    ensures forall x: uint64 | from <= x <= to && ColumnKey(c, SerializeUInt64(x)) in data ::
      exists i :: 0 <= i < |es| && es[i].key == x
  {
    var keys := RangeKeys(data, c, SerializeUInt64(from), SerializeUInt64(to));
    var raws := OrderedEntries(data, c, keys);
    OrderedEntriesExact(data, c, keys);
    es := UInt64EntriesDecode(data, c, raws);
    UInt64EntriesAreNumericRange(data, c, keys, raws, es, from, to);
  }

  /** The decoded entries of an ascending scan over the byte range of from..to are the stored entries of from..to, ascending. */
  lemma UInt64EntriesAreNumericRange(data: map<StoreKey, Bytes>, c: nat, keys: set<Bytes>, raws: seq<RawEntry>,
                                     es: seq<ColumnEntry<uint64, uint64>>, from: uint64, to: uint64)
    requires keys == RangeKeys(data, c, SerializeUInt64(from), SerializeUInt64(to))
    requires |es| == |raws|
    requires forall i | 0 <= i < |raws| ::
      SerializeUInt64(es[i].key) == raws[i].key && SerializeUInt64(es[i].value) == raws[i].value
    requires forall i, j | 0 <= i < j < |raws| :: LexLt(raws[i].key, raws[j].key)
    requires forall i | 0 <= i < |raws| :: raws[i].key in keys && raws[i].value == data[ColumnKey(c, raws[i].key)]
    requires forall k | k in keys :: exists i :: 0 <= i < |raws| && raws[i].key == k
    ensures forall i, j | 0 <= i < j < |es| :: es[i].key < es[j].key
    ensures forall i | 0 <= i < |es| ::
      && from <= es[i].key <= to
      && ColumnKey(c, SerializeUInt64(es[i].key)) in data
      && data[ColumnKey(c, SerializeUInt64(es[i].key))] == SerializeUInt64(es[i].value)
    ensures forall x: uint64 | from <= x <= to && ColumnKey(c, SerializeUInt64(x)) in data ::
      exists i :: 0 <= i < |es| && es[i].key == x
  {
    UInt64KeysAscend(raws, es, from, to);
    UInt64KeysCover(data, c, keys, raws, es, from, to);
  }

  /** Decoded UInt64 keys of entries in ascending byte order within a byte range ascend numerically within the numeric range. */
  lemma UInt64KeysAscend(raws: seq<RawEntry>, es: seq<ColumnEntry<uint64, uint64>>, from: uint64, to: uint64)
    requires |es| == |raws|
    requires forall i | 0 <= i < |raws| :: SerializeUInt64(es[i].key) == raws[i].key
    requires forall i, j | 0 <= i < j < |raws| :: LexLt(raws[i].key, raws[j].key)
    requires forall i | 0 <= i < |raws| :: InRange(raws[i].key, SerializeUInt64(from), SerializeUInt64(to))
    ensures forall i, j | 0 <= i < j < |es| :: es[i].key < es[j].key
    ensures forall i | 0 <= i < |es| :: from <= es[i].key <= to
  {
    forall i, j | 0 <= i < j < |es| ensures es[i].key < es[j].key {
      UInt64OrderPreserving(es[i].key, es[j].key);
    }
    forall i | 0 <= i < |es| ensures from <= es[i].key <= to {
      UInt64OrderPreserving(from, es[i].key);
      UInt64OrderPreserving(es[i].key, to);
    }
  }

  /** Every stored UInt64 key in from..to is among the decoded keys of the entries of the byte range. */
  lemma UInt64KeysCover(data: map<StoreKey, Bytes>, c: nat, keys: set<Bytes>, raws: seq<RawEntry>,
                        es: seq<ColumnEntry<uint64, uint64>>, from: uint64, to: uint64)
    requires keys == RangeKeys(data, c, SerializeUInt64(from), SerializeUInt64(to))
    requires |es| == |raws|
    requires forall i | 0 <= i < |raws| :: SerializeUInt64(es[i].key) == raws[i].key
    requires forall k | k in keys :: exists i :: 0 <= i < |raws| && raws[i].key == k
    ensures forall x: uint64 | from <= x <= to && ColumnKey(c, SerializeUInt64(x)) in data ::
      exists i :: 0 <= i < |es| && es[i].key == x
  {
    forall x: uint64 | from <= x <= to && ColumnKey(c, SerializeUInt64(x)) in data
      ensures exists i :: 0 <= i < |es| && es[i].key == x
    {
      UInt64OrderPreserving(from, x);
      UInt64OrderPreserving(x, to);
      assert SerializeUInt64(x) in keys;
      var i :| 0 <= i < |raws| && raws[i].key == SerializeUInt64(x);
      UInt64OrderPreserving(es[i].key, x);
    }
  }

  /**
   * The floor of x in a UInt64 column decodes to the greatest stored key
   * that is at most x, numerically.
   */
  lemma UInt64FloorIsPredecessor(data: map<StoreKey, Bytes>, c: nat, x: uint64, fk: Bytes)
    requires HoldsUInt64s(data, c)
    requires IsGreatest(fk, Below(data, c, SerializeUInt64(x)))
    ensures DecodeEntry(UInt64Column(c), ColumnEntry(fk, data[ColumnKey(c, fk)])).Ok?
    ensures var y := DeserializeUInt64(fk).value;
      && y <= x
      && SerializeUInt64(y) == fk
      && (forall z: uint64 | ColumnKey(c, SerializeUInt64(z)) in data && z <= x :: z <= y)
  {
    StoredUInt64Key(data, c, fk);
    UInt64Canonical(data[ColumnKey(c, fk)]);
    var y := DeserializeUInt64(fk).value;
    UInt64OrderPreserving(y, x);
    forall z: uint64 | ColumnKey(c, SerializeUInt64(z)) in data && z <= x ensures z <= y {
      UInt64OrderPreserving(z, x);
      UInt64OrderPreserving(z, y);
    }
  }

  /** A UInt64 column has no floor for x exactly when every stored key is greater than x. */
  lemma UInt64FloorAbsent(data: map<StoreKey, Bytes>, c: nat, x: uint64)
    requires HoldsUInt64s(data, c)
    ensures Below(data, c, SerializeUInt64(x)) == {} <==>
      forall z: uint64 | ColumnKey(c, SerializeUInt64(z)) in data :: x < z
  {
    if Below(data, c, SerializeUInt64(x)) != {} {
      var k :| k in Below(data, c, SerializeUInt64(x));
      StoredUInt64Key(data, c, k);
      var z := DeserializeUInt64(k).value;
      UInt64OrderPreserving(z, x);
    } else {
      forall z: uint64 | ColumnKey(c, SerializeUInt64(z)) in data ensures x < z {
        UInt64OrderPreserving(z, x);
        assert SerializeUInt64(z) !in Below(data, c, SerializeUInt64(x));
      }
    }
  }

  // ------------------------------------------------------------------
  // Int-keyed columns whose keys are not negative

  function IntColumn(c: nat): Column<int32, int32>
  {
    Column(c, IntSerializer, IntSerializer)
  }

  /**
   * Column c holds 4-byte keys that encode non-negative ints and 4-byte
   * values, as typed puts of non-negative int keys leave it.
   */
  ghost predicate HoldsNonNegativeInts(data: map<StoreKey, Bytes>, c: nat)
  {
    forall sk | sk in data && sk.ColumnKey? && sk.column == c ::
      |sk.key| == 4 && DecodeBE(sk.key) < INT32_LIMIT && |data[sk]| == 4
  }

  lemma StoredIntKey(data: map<StoreKey, Bytes>, c: nat, k: Bytes)
    requires HoldsNonNegativeInts(data, c) && ColumnKey(c, k) in data
    ensures DeserializeInt(k).Some? && DeserializeInt(k).value >= 0
    ensures SerializeInt(DeserializeInt(k).value) == k
  {
    IntCanonical(k);
  }

  /** Entries read from such a column all decode, to the ints their bytes encode. */
  lemma IntEntriesDecode(data: map<StoreKey, Bytes>, c: nat, raws: seq<RawEntry>)
    returns (es: seq<ColumnEntry<int32, int32>>)
    requires HoldsNonNegativeInts(data, c)
    requires forall i | 0 <= i < |raws| ::
      ColumnKey(c, raws[i].key) in data && raws[i].value == data[ColumnKey(c, raws[i].key)]
    ensures DecodeEntries(IntColumn(c), raws) == Ok(es) && |es| == |raws|
    ensures forall i | 0 <= i < |raws| ::
      es[i].key >= 0 && SerializeInt(es[i].key) == raws[i].key && SerializeInt(es[i].value) == raws[i].value
  {
    var col := IntColumn(c);
    forall i | 0 <= i < |raws|
      ensures DecodeEntry(col, raws[i]) == Ok(ColumnEntry(DeserializeInt(raws[i].key).value, DeserializeInt(raws[i].value).value))
      ensures DeserializeInt(raws[i].key).value >= 0
      ensures SerializeInt(DeserializeInt(raws[i].key).value) == raws[i].key
      ensures SerializeInt(DeserializeInt(raws[i].value).value) == raws[i].value
    {
      StoredIntKey(data, c, raws[i].key);
      IntCanonical(raws[i].value);
    }
    es := DecodeEntries(col, raws).value;
  }

  /**
   * A typed stream over such a column from `from` to `to` (both not
   * negative) yields exactly the stored keys x with from <= x <= to,
   * strictly ascending as numbers, each with its stored value.
   */
  lemma IntStreamIsNumericRange(data: map<StoreKey, Bytes>, c: nat, from: int32, to: int32)
    returns (es: seq<ColumnEntry<int32, int32>>)
    requires HoldsNonNegativeInts(data, c)
    requires 0 <= from && 0 <= to
    ensures DecodeEntries(IntColumn(c), OrderedEntries(data, c, RangeKeys(data, c, SerializeInt(from), SerializeInt(to)))) == Ok(es)
    ensures forall i, j | 0 <= i < j < |es| :: es[i].key < es[j].key
    ensures forall i | 0 <= i < |es| ::
      && from <= es[i].key <= to
      && ColumnKey(c, SerializeInt(es[i].key)) in data
      && data[ColumnKey(c, SerializeInt(es[i].key))] == SerializeInt(es[i].value)
    ensures forall x: int32 | from <= x <= to && ColumnKey(c, SerializeInt(x)) in data ::
      exists i :: 0 <= i < |es| && es[i].key == x
  {
    var keys := RangeKeys(data, c, SerializeInt(from), SerializeInt(to));
    var raws := OrderedEntries(data, c, keys);
    OrderedEntriesExact(data, c, keys);
    es := IntEntriesDecode(data, c, raws);
    IntEntriesAreNumericRange(data, c, keys, raws, es, from, to);
  }

  /** The decoded entries of an ascending scan over the byte range of from..to are the stored entries of from..to, ascending. */
  lemma IntEntriesAreNumericRange(data: map<StoreKey, Bytes>, c: nat, keys: set<Bytes>, raws: seq<RawEntry>,
                                  es: seq<ColumnEntry<int32, int32>>, from: int32, to: int32)
    requires 0 <= from && 0 <= to
    requires keys == RangeKeys(data, c, SerializeInt(from), SerializeInt(to))
    requires |es| == |raws|
    requires forall i | 0 <= i < |raws| ::
      && es[i].key >= 0 && SerializeInt(es[i].key) == raws[i].key && SerializeInt(es[i].value) == raws[i].value
    requires forall i, j | 0 <= i < j < |raws| :: LexLt(raws[i].key, raws[j].key)
    requires forall i | 0 <= i < |raws| :: raws[i].key in keys && raws[i].value == data[ColumnKey(c, raws[i].key)]
    requires forall k | k in keys :: exists i :: 0 <= i < |raws| && raws[i].key == k
    ensures forall i, j | 0 <= i < j < |es| :: es[i].key < es[j].key
    ensures forall i | 0 <= i < |es| ::
      && from <= es[i].key <= to
      && ColumnKey(c, SerializeInt(es[i].key)) in data
      && data[ColumnKey(c, SerializeInt(es[i].key))] == SerializeInt(es[i].value)
    ensures forall x: int32 | from <= x <= to && ColumnKey(c, SerializeInt(x)) in data ::
      exists i :: 0 <= i < |es| && es[i].key == x
  {
    IntKeysAscend(raws, es, from, to);
    IntKeysCover(data, c, keys, raws, es, from, to);
  }

  /** Decoded non-negative int keys of entries in ascending byte order within a byte range ascend numerically within the numeric range. */
  lemma IntKeysAscend(raws: seq<RawEntry>, es: seq<ColumnEntry<int32, int32>>, from: int32, to: int32)
    requires 0 <= from && 0 <= to
    requires |es| == |raws|
    requires forall i | 0 <= i < |raws| :: es[i].key >= 0 && SerializeInt(es[i].key) == raws[i].key
    requires forall i, j | 0 <= i < j < |raws| :: LexLt(raws[i].key, raws[j].key)
    requires forall i | 0 <= i < |raws| :: InRange(raws[i].key, SerializeInt(from), SerializeInt(to))
    ensures forall i, j | 0 <= i < j < |es| :: es[i].key < es[j].key
    ensures forall i | 0 <= i < |es| :: from <= es[i].key <= to
  {
    forall i, j | 0 <= i < j < |es| ensures es[i].key < es[j].key {
      IntOrderPreservingOnNonNegatives(es[i].key, es[j].key);
      IntOrderPreservingOnNonNegatives(es[j].key, es[i].key);
    }
    forall i | 0 <= i < |es| ensures from <= es[i].key <= to {
      IntOrderPreservingOnNonNegatives(from, es[i].key);
      IntOrderPreservingOnNonNegatives(es[i].key, to);
    }
  }

  /** Every stored int key in from..to (both not negative) is among the decoded keys of the entries of the byte range. */
  lemma IntKeysCover(data: map<StoreKey, Bytes>, c: nat, keys: set<Bytes>, raws: seq<RawEntry>,
                     es: seq<ColumnEntry<int32, int32>>, from: int32, to: int32)
    requires 0 <= from && 0 <= to
    requires keys == RangeKeys(data, c, SerializeInt(from), SerializeInt(to))
    requires |es| == |raws|
    requires forall i | 0 <= i < |raws| :: es[i].key >= 0 && SerializeInt(es[i].key) == raws[i].key
    requires forall k | k in keys :: exists i :: 0 <= i < |raws| && raws[i].key == k
    ensures forall x: int32 | from <= x <= to && ColumnKey(c, SerializeInt(x)) in data ::
      exists i :: 0 <= i < |es| && es[i].key == x
  {
    forall x: int32 | from <= x <= to && ColumnKey(c, SerializeInt(x)) in data
      ensures exists i :: 0 <= i < |es| && es[i].key == x
    {
      IntOrderPreservingOnNonNegatives(from, x);
      IntOrderPreservingOnNonNegatives(x, to);
      assert SerializeInt(x) in keys;
      var i :| 0 <= i < |raws| && raws[i].key == SerializeInt(x);
      IntOrderPreservingOnNonNegatives(es[i].key, x);
    }
  }

  /**
   * The floor of a non-negative x in such a column decodes to the greatest
   * stored key that is at most x, numerically.
   */
  lemma IntFloorIsPredecessor(data: map<StoreKey, Bytes>, c: nat, x: int32, fk: Bytes)
    requires HoldsNonNegativeInts(data, c) && 0 <= x
    requires IsGreatest(fk, Below(data, c, SerializeInt(x)))
    ensures DecodeEntry(IntColumn(c), ColumnEntry(fk, data[ColumnKey(c, fk)])).Ok?
    ensures var y := DeserializeInt(fk).value;
      && 0 <= y <= x
      && SerializeInt(y) == fk
      && (forall z: int32 | 0 <= z && ColumnKey(c, SerializeInt(z)) in data && z <= x :: z <= y)
  {
    StoredIntKey(data, c, fk);
    IntCanonical(data[ColumnKey(c, fk)]);
    var y := DeserializeInt(fk).value;
    IntOrderPreservingOnNonNegatives(y, x);
    forall z: int32 | 0 <= z && ColumnKey(c, SerializeInt(z)) in data && z <= x ensures z <= y {
      IntOrderPreservingOnNonNegatives(z, x);
      IntOrderPreservingOnNonNegatives(z, y);
    }
  }

  /** Such a column has no floor for a non-negative x exactly when every stored key is greater than x. */
  lemma IntFloorAbsent(data: map<StoreKey, Bytes>, c: nat, x: int32)
    requires HoldsNonNegativeInts(data, c) && 0 <= x
    ensures Below(data, c, SerializeInt(x)) == {} <==>
      forall z: int32 | 0 <= z && ColumnKey(c, SerializeInt(z)) in data :: x < z
  {
    if Below(data, c, SerializeInt(x)) != {} {
      var k :| k in Below(data, c, SerializeInt(x));
      StoredIntKey(data, c, k);
      var z := DeserializeInt(k).value;
      IntOrderPreservingOnNonNegatives(z, x);
    } else {
      forall z: int32 | 0 <= z && ColumnKey(c, SerializeInt(z)) in data ensures x < z {
        IntOrderPreservingOnNonNegatives(z, x);
        assert SerializeInt(z) !in Below(data, c, SerializeInt(x));
      }
    }
  }

  /** A strictly increasing list of integers that covers exactly lo..hi is lo, lo + 1, ..., hi. */
  lemma {:induction false} IncreasingCoverIsRange(s: seq<int>, lo: int, hi: int)
    requires lo <= hi + 1
    requires forall i, j | 0 <= i < j < |s| :: s[i] < s[j]
    requires forall i | 0 <= i < |s| :: lo <= s[i] <= hi
    requires forall x | lo <= x <= hi :: x in s
    ensures s == seq(hi - lo + 1, i => lo + i)
    decreases hi - lo
  {
    if lo > hi {
      if |s| > 0 {
        assert false;
      }
    } else {
      CoverStartsAtLow(s, lo, hi);
      CoverTail(s, lo, hi);
      IncreasingCoverIsRange(s[1..], lo + 1, hi);
      forall i | 0 <= i < |s| ensures s[i] == lo + i {
        if i > 0 {
          assert s[i] == s[1..][i - 1];
        }
      }
    }
  }

  lemma CoverStartsAtLow(s: seq<int>, lo: int, hi: int)
    requires lo <= hi
    requires forall i, j | 0 <= i < j < |s| :: s[i] < s[j]
    requires forall i | 0 <= i < |s| :: lo <= s[i] <= hi
    requires forall x | lo <= x <= hi :: x in s
    ensures |s| > 0 && s[0] == lo
  {
    assert lo in s;
    var k :| 0 <= k < |s| && s[k] == lo;
    assert s[0] <= s[k];
  }

  /** Without its least element lo, a strictly increasing cover of lo..hi covers lo + 1..hi. */
  lemma CoverTail(s: seq<int>, lo: int, hi: int)
    requires |s| > 0 && s[0] == lo
    requires forall i, j | 0 <= i < j < |s| :: s[i] < s[j]
    requires forall i | 0 <= i < |s| :: lo <= s[i] <= hi
    requires forall x | lo <= x <= hi :: x in s
    ensures forall i, j | 0 <= i < j < |s[1..]| :: s[1..][i] < s[1..][j]
    ensures forall i | 0 <= i < |s[1..]| :: lo + 1 <= s[1..][i] <= hi
    ensures forall x | lo + 1 <= x <= hi :: x in s[1..]
  {
    var t := s[1..];
    forall x | lo + 1 <= x <= hi ensures x in t {
      assert x in s;
      var i :| 0 <= i < |s| && s[i] == x;
      assert i > 0 && t[i - 1] == x;
    }
    forall i | 0 <= i < |t| ensures lo + 1 <= t[i] <= hi {
      assert s[0] < s[i + 1];
    }
  }

}
