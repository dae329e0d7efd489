/**
 * The typed key-value store the chain storage is built on: columns and
 * variables over one byte-keyed store, transactions that stage writes and
 * apply them together on commit, point reads, ordered range streams and
 * predecessor ("floor") lookup.
 *
 * The committed state is one map from store keys to value bytes. A column
 * key and a variable key never collide (they are different constructors),
 * which is the namespacing a backend gets from per-column key prefixes.
 * Keys within a column are ordered by ByteOrder.LexLe on their bytes.
 */
module KvStore {
  import opened Wrappers
  import opened ByteOrder
  import opened Serializers

  /** Bytes read back from the store that the declared serializer cannot decode. */
  datatype Fault = SerializationFault

  /** Where a value lives: a key inside a column, or a whole variable. */
  datatype StoreKey = ColumnKey(column: nat, key: Bytes) | VariableKey(id: nat)

  /** A (key, value) pair as range reads produce it; with Bytes for both it is a raw entry. */
  datatype ColumnEntry<K, V> = ColumnEntry(key: K, value: V)

  type RawEntry = ColumnEntry<Bytes, Bytes>

  /** A column: its numeric id and the serializers of its keys and values. */
  datatype Column<!K, !V> = Column(id: nat, keySerializer: Serializer<K>, valueSerializer: Serializer<V>)

  /** A variable: a single slot with a numeric id and a value serializer. */
  datatype Variable<!T> = Variable(id: nat, serializer: Serializer<T>)

  /** One staged write, already in byte form. */
  datatype Write = Write(key: StoreKey, value: Bytes)

  // ------------------------------------------------------------------
  // The committed state seen as a value

  /** The keys stored in column c. */
  function ColumnKeys(data: map<StoreKey, Bytes>, c: nat): (r: set<Bytes>)
    ensures forall k :: k in r <==> ColumnKey(c, k) in data
  {
    set sk | sk in data && sk.ColumnKey? && sk.column == c :: sk.key
  }

  predicate InRange(k: Bytes, from: Bytes, to: Bytes)
  {
    LexLe(from, k) && LexLe(k, to)
  }

  /** The keys of column c between `from` and `to`, both inclusive. */
  function RangeKeys(data: map<StoreKey, Bytes>, c: nat, from: Bytes, to: Bytes): (r: set<Bytes>)
    ensures forall k :: k in r <==> ColumnKey(c, k) in data && InRange(k, from, to)
  {
    set k | k in ColumnKeys(data, c) && InRange(k, from, to)
  }

  /** The keys of column c that are at most kb. */
  function Below(data: map<StoreKey, Bytes>, c: nat, kb: Bytes): (r: set<Bytes>)
    ensures forall k :: k in r <==> ColumnKey(c, k) in data && LexLe(k, kb)
  {
    set k | k in ColumnKeys(data, c) && LexLe(k, kb)
  }

  predicate IsLeast(k: Bytes, s: set<Bytes>)
  {
    k in s && forall k' | k' in s :: LexLe(k, k')
  }

  predicate IsGreatest(k: Bytes, s: set<Bytes>)
  {
    k in s && forall k' | k' in s :: LexLe(k', k)
  }

  predicate StrictlyAscending(ks: seq<Bytes>)
  {
    forall i, j | 0 <= i < j < |ks| :: LexLt(ks[i], ks[j])
  }

  lemma {:induction false} LeastExists(s: set<Bytes>)
    requires s != {}
    ensures exists k :: IsLeast(k, s)
  {
    var x :| x in s;
    LexLeReflexive(x);
    if s == {x} {
      assert IsLeast(x, s);
    } else {
      LeastExists(s - {x});
      var m :| IsLeast(m, s - {x});
      LexLeTotal(m, x);
      if LexLe(m, x) {
        assert IsLeast(m, s);
      } else {
        forall k | k in s ensures LexLe(x, k) {
          if k != x {
            LexLeTransitive(x, m, k);
          }
        }
        assert IsLeast(x, s);
      }
    }
  }

  lemma {:induction false} GreatestExists(s: set<Bytes>)
    requires s != {}
    ensures exists k :: IsGreatest(k, s)
  {
    var x :| x in s;
    LexLeReflexive(x);
    if s == {x} {
      assert IsGreatest(x, s);
    } else {
      GreatestExists(s - {x});
      var m :| IsGreatest(m, s - {x});
      LexLeTotal(m, x);
      if LexLe(x, m) {
        assert IsGreatest(m, s);
      } else {
        forall k | k in s ensures LexLe(k, x) {
          if k != x {
            LexLeTransitive(k, m, x);
          }
        }
        assert IsGreatest(x, s);
      }
    }
  }

  lemma LeastUnique(s: set<Bytes>)
    ensures forall a, b :: IsLeast(a, s) && IsLeast(b, s) ==> a == b
  {
    forall a, b | IsLeast(a, s) && IsLeast(b, s) ensures a == b {
      LexLeAntisymmetric(a, b);
    }
  }

  lemma GreatestUnique(s: set<Bytes>)
    ensures forall a, b :: IsGreatest(a, s) && IsGreatest(b, s) ==> a == b
  {
    forall a, b | IsGreatest(a, s) && IsGreatest(b, s) ensures a == b {
      LexLeAntisymmetric(a, b);
    }
  }

  /** The elements of s in ascending byte order: the order a store iterates keys in. */
  ghost function Ascending(s: set<Bytes>): seq<Bytes>
    decreases s
  {
    if s == {} then []
    else
      LeastExists(s);
      var k :| IsLeast(k, s);
      [k] + Ascending(s - {k})
  }

  lemma AscendingUnfold(s: set<Bytes>, k: Bytes)
    requires IsLeast(k, s)
    ensures Ascending(s) == [k] + Ascending(s - {k})
  {
    LeastUnique(s);
  }

  /** Ascending(s) lists every element of s exactly once, strictly ascending. */
  lemma {:induction false} AscendingIsSortedEnumeration(s: set<Bytes>)
    ensures |Ascending(s)| == |s|
    ensures forall k :: k in Ascending(s) <==> k in s
    ensures StrictlyAscending(Ascending(s))
    decreases s
  {
    if s != {} {
      LeastExists(s);
      var k :| IsLeast(k, s);
      AscendingUnfold(s, k);
      var rest := Ascending(s - {k});
      AscendingIsSortedEnumeration(s - {k});
      var r := [k] + rest;
      forall i, j | 0 <= i < j < |r| ensures LexLt(r[i], r[j]) {
        if i > 0 {
          assert r[i] == rest[i - 1] && r[j] == rest[j - 1];
        } else {
          assert r[j] == rest[j - 1];
          assert r[j] in s - {k};
        }
      }
    }
  }

  /** Sorts a finite set of keys by repeatedly taking its least element. */
  method SortedKeys(s: set<Bytes>) returns (r: seq<Bytes>)
    ensures r == Ascending(s)
  {
    r := [];
    var rest := s;
    while rest != {}
      invariant r + Ascending(rest) == Ascending(s)
      decreases rest
    {
      LeastExists(rest);
      var k :| k in rest && IsLeast(k, rest);
      AscendingUnfold(rest, k);
      r, rest := r + [k], rest - {k};
    }
  }

  /** The entries of column c at the given keys, in the given order. */
  function EntriesAt(data: map<StoreKey, Bytes>, c: nat, keys: seq<Bytes>): seq<RawEntry>
    requires forall k | k in keys :: ColumnKey(c, k) in data
  {
    seq(|keys|, i requires 0 <= i < |keys| => ColumnEntry(keys[i], data[ColumnKey(c, keys[i])]))
  }

  /** The entries of column c whose keys are in `keys`, in ascending key order. */
  ghost function OrderedEntries(data: map<StoreKey, Bytes>, c: nat, keys: set<Bytes>): seq<RawEntry>
    requires keys <= ColumnKeys(data, c)
  {
    AscendingIsSortedEnumeration(keys);
    EntriesAt(data, c, Ascending(keys))
  }

  /**
   * What a scan of column c over `keys` yields: each stored entry of column c
   * with a key in `keys`, once, with its stored value, strictly ascending by key,
   * and nothing else.
   */
  lemma OrderedEntriesExact(data: map<StoreKey, Bytes>, c: nat, keys: set<Bytes>)
    requires keys <= ColumnKeys(data, c)
    ensures var r := OrderedEntries(data, c, keys);
      && |r| == |keys|
      && (forall i, j | 0 <= i < j < |r| :: LexLt(r[i].key, r[j].key))
      && (forall i | 0 <= i < |r| :: r[i].key in keys && r[i].value == data[ColumnKey(c, r[i].key)])
      && (forall k | k in keys :: exists i :: 0 <= i < |r| && r[i].key == k)
  {
    AscendingIsSortedEnumeration(keys);
    var ks := Ascending(keys);
    var r := OrderedEntries(data, c, keys);
    assert forall i | 0 <= i < |r| :: r[i].key == ks[i];
    forall k | k in keys ensures exists i :: 0 <= i < |r| && r[i].key == k {
      var i :| 0 <= i < |ks| && ks[i] == k;
      assert r[i].key == k;
    }
  }

  function DecodeEntry<K, V>(col: Column<K, V>, raw: RawEntry): Result<ColumnEntry<K, V>, Fault>
  {
    match (col.keySerializer.deserialize(raw.key), col.valueSerializer.deserialize(raw.value))
    case (Some(k), Some(v)) => Ok(ColumnEntry(k, v))
    case _ => Err(SerializationFault)
  }

  /** Decodes raw entries in order; fails if any of them fails to decode. */
  function DecodeEntries<K, V>(col: Column<K, V>, raws: seq<RawEntry>): (r: Result<seq<ColumnEntry<K, V>>, Fault>)
    ensures r.Ok? <==> forall i | 0 <= i < |raws| :: DecodeEntry(col, raws[i]).Ok?
    ensures r.Ok? ==> |r.value| == |raws| && forall i | 0 <= i < |raws| :: DecodeEntry(col, raws[i]) == Ok(r.value[i])
  {
    if raws == [] then Ok([])
    else
      match DecodeEntry(col, raws[0])
      case Err(f) => Err(f)
      case Ok(e) =>
        match DecodeEntries(col, raws[1..])
        case Err(f) => Err(f)
        case Ok(es) => Ok([e] + es)
  }

  /** The write a typed put stages: the serialized key in the column, the serialized value. */
  function ColumnWrite<K, V>(col: Column<K, V>, key: K, value: V): Write
  {
    Write(ColumnKey(col.id, col.keySerializer.serialize(key)), col.valueSerializer.serialize(value))
  }

  /** The write a typed variable put stages. */
  function VariableWrite<T>(variable: Variable<T>, value: T): Write
  {
    Write(VariableKey(variable.id), variable.serializer.serialize(value))
  }

  /** The store after applying `writes` in order on top of m: later writes to a key win. */
  function Staged(m: map<StoreKey, Bytes>, writes: seq<Write>): map<StoreKey, Bytes>
  {
    if writes == [] then m
    else
      var w := writes[|writes| - 1];
      Staged(m, writes[..|writes| - 1])[w.key := w.value]
  }

  /** Within one batch of writes, the last write to a key decides its value. */
  lemma {:induction false} LastWriteWins(m: map<StoreKey, Bytes>, writes: seq<Write>, i: nat)
    requires i < |writes|
    requires forall j | i < j < |writes| :: writes[j].key != writes[i].key
    ensures writes[i].key in Staged(m, writes)
    ensures Staged(m, writes)[writes[i].key] == writes[i].value
  {
    if i < |writes| - 1 {
      LastWriteWins(m, writes[..|writes| - 1], i);
    }
  }

  /** A key no write in the batch touches keeps its old presence and value. */
  lemma {:induction false} UnwrittenKeyKept(m: map<StoreKey, Bytes>, writes: seq<Write>, key: StoreKey)
    requires forall j | 0 <= j < |writes| :: writes[j].key != key
    ensures key in Staged(m, writes) <==> key in m
    ensures key in m ==> Staged(m, writes)[key] == m[key]
  {
    if writes != [] {
      UnwrittenKeyKept(m, writes[..|writes| - 1], key);
    }
  }

  /** Staging two batches one after the other is staging their concatenation. */
  lemma {:induction false} StagedConcat(m: map<StoreKey, Bytes>, a: seq<Write>, b: seq<Write>)
    ensures Staged(m, a + b) == Staged(Staged(m, a), b)
  {
    if b != [] {
      assert (a + b)[..|a + b| - 1] == a + b[..|b| - 1];
      StagedConcat(m, a, b[..|b| - 1]);
    } else {
      assert a + b == a;
    }
  }

  /** Staging a batch on top of m gives m overwritten by the batch staged on its own. */
  lemma {:induction false} StagedOnTop(m: map<StoreKey, Bytes>, writes: seq<Write>)
    ensures Staged(m, writes) == m + Staged(map[], writes)
  {
    if writes != [] {
      StagedOnTop(m, writes[..|writes| - 1]);
    }
  }

  /**
   * What getFloorEntry may answer for `key` in `col` over `data`: empty
   * exactly when no stored key of the column is at most `key`; otherwise
   * the decoded entry of the greatest such key, or a fault when that entry
   * does not decode.
   */
  ghost predicate IsFloorResult<K, V>(data: map<StoreKey, Bytes>, col: Column<K, V>, key: K,
                                      r: Result<Option<ColumnEntry<K, V>>, Fault>)
  {
    var below := Below(data, col.id, col.keySerializer.serialize(key));
    && (r.Ok? && r.value.None? <==> below == {})
    && (r.Ok? && r.value.Some? ==>
          exists fk :: (IsGreatest(fk, below)
            && DecodeEntry(col, ColumnEntry(fk, data[ColumnKey(col.id, fk)])) == Ok(r.value.value)))
    && (r.Err? ==>
          exists fk :: (IsGreatest(fk, below)
            && DecodeEntry(col, ColumnEntry(fk, data[ColumnKey(col.id, fk)])).Err?))
  }

  // ------------------------------------------------------------------
  // The accessor

  class KvStoreAccessor {
    /** The committed contents of every column and variable. */
    var data: map<StoreKey, Bytes>

    /** A freshly created store holds nothing. */
    constructor ()
      ensures data == map[]
    {
      data := map[];
    }

    /** The stored value bytes of a column key, undecoded. */
    function GetRaw<K, V>(col: Column<K, V>, key: K): (r: Option<Bytes>)
      reads this
      ensures r.Some? <==> ColumnKey(col.id, col.keySerializer.serialize(key)) in data
      ensures r.Some? ==> r.value == data[ColumnKey(col.id, col.keySerializer.serialize(key))]
    {
      var sk := ColumnKey(col.id, col.keySerializer.serialize(key));
      if sk in data then Some(data[sk]) else None
    }

    /** The stored bytes of a variable, undecoded. */
    function GetVariableRaw<T>(variable: Variable<T>): (r: Option<Bytes>)
      reads this
      ensures r.Some? <==> VariableKey(variable.id) in data
      ensures r.Some? ==> r.value == data[VariableKey(variable.id)]
    {
      if VariableKey(variable.id) in data then Some(data[VariableKey(variable.id)]) else None
    }

    /**
     * The value stored under `key` in `col`: empty when the key is absent,
     * a serialization fault when the stored bytes do not decode.
     */
    function Get<K, V>(col: Column<K, V>, key: K): (r: Result<Option<V>, Fault>)
      reads this
      ensures var sk := ColumnKey(col.id, col.keySerializer.serialize(key));
        && (r.Ok? && r.value.None? <==> sk !in data)
        && (r.Ok? && r.value.Some? ==> sk in data && col.valueSerializer.deserialize(data[sk]) == Some(r.value.value))
        && (r.Err? <==> sk in data && col.valueSerializer.deserialize(data[sk]).None?)
    {
      match GetRaw(col, key)
      case None => Ok(None)
      case Some(bytes) =>
        match col.valueSerializer.deserialize(bytes)
        case None => Err(SerializationFault)
        case Some(v) => Ok(Some(v))
    }

    /** The value of a variable: empty when never written, a fault when it does not decode. */
    function GetVariable<T>(variable: Variable<T>): (r: Result<Option<T>, Fault>)
      reads this
      ensures var sk := VariableKey(variable.id);
        && (r.Ok? && r.value.None? <==> sk !in data)
        && (r.Ok? && r.value.Some? ==> sk in data && variable.serializer.deserialize(data[sk]) == Some(r.value.value))
        && (r.Err? <==> sk in data && variable.serializer.deserialize(data[sk]).None?)
    {
      match GetVariableRaw(variable)
      case None => Ok(None)
      case Some(bytes) =>
        match variable.serializer.deserialize(bytes)
        case None => Err(SerializationFault)
        case Some(v) => Ok(Some(v))
    }

    /** Every entry of the column, undecoded, in ascending key order. */
    method StreamRaw<K, V>(col: Column<K, V>) returns (r: seq<RawEntry>)
      ensures r == OrderedEntries(data, col.id, ColumnKeys(data, col.id))
    {
      var keys := SortedKeys(ColumnKeys(data, col.id));
      AscendingIsSortedEnumeration(ColumnKeys(data, col.id));
      r := EntriesAt(data, col.id, keys);
    }

    /**
     * The decoded entries of `col` whose serialized keys lie between the
     * serialized `from` and `to`, both inclusive, in ascending key order.
     */
    method Stream<K, V>(col: Column<K, V>, from: K, to: K) returns (r: Result<seq<ColumnEntry<K, V>>, Fault>)
      ensures r == DecodeEntries(col, OrderedEntries(data, col.id,
        RangeKeys(data, col.id, col.keySerializer.serialize(from), col.keySerializer.serialize(to))))
    {
      var range := RangeKeys(data, col.id, col.keySerializer.serialize(from), col.keySerializer.serialize(to));
      var keys := SortedKeys(range);
      AscendingIsSortedEnumeration(range);
      r := DecodeEntries(col, EntriesAt(data, col.id, keys));
    }

    /**
     * The entry of `col` with the greatest key at most `key`: empty exactly
     * when no key of that column is at most `key`.
     */
    method GetFloorEntry<K, V>(col: Column<K, V>, key: K) returns (r: Result<Option<ColumnEntry<K, V>>, Fault>)
      ensures IsFloorResult(data, col, key, r)
    {
      var below := Below(data, col.id, col.keySerializer.serialize(key));
      if below == {} {
        r := Ok(None);
      } else {
        GreatestExists(below);
        var fk :| fk in below && IsGreatest(fk, below);
        match DecodeEntry(col, ColumnEntry(fk, data[ColumnKey(col.id, fk)]))
        case Ok(e) => r := Ok(Some(e));
        case Err(f) => r := Err(f);
      }
    }

    method StartTransaction() returns (tx: KvStoreTransaction)
      ensures fresh(tx) && tx.store == this
      ensures tx.state == Open && tx.pending == map[]
    {
      tx := new KvStoreTransaction(this);
    }

    /**
     * The tests' update helper: open a transaction, stage the writes in
     * order, commit, close.
     */
    method Update(writes: seq<Write>)
      modifies this
      ensures data == old(data) + Staged(map[], writes)
    {
      var tx := StartTransaction();
      var i := 0;
      while i < |writes|
        invariant 0 <= i <= |writes|
        invariant fresh(tx) && tx.store == this && tx.state == Open
        invariant tx.pending == Staged(map[], writes[..i])
        invariant data == old(data)
      {
        var ok := tx.Apply(writes[i]);
        assert writes[..i + 1][..i] == writes[..i];
        i := i + 1;
      }
      assert writes[..i] == writes;
      var committed := tx.Commit();
      tx.Close();
    }
  }

  /**
   * After a batch of writes is committed, a typed read of a key returns
   * the value of the last put to it, provided the serializer decodes what
   * it encodes.
   */
  lemma ReadsLastCommittedPut<K, V>(store: KvStoreAccessor, m: map<StoreKey, Bytes>, ws: seq<Write>, i: nat,
                                    col: Column<K, V>, key: K, value: V)
    requires store.data == m + Staged(map[], ws)
    requires i < |ws| && ws[i] == ColumnWrite(col, key, value)
    requires forall j | i < j < |ws| :: ws[j].key != ws[i].key
    requires col.valueSerializer.deserialize(col.valueSerializer.serialize(value)) == Some(value)
    ensures store.Get(col, key) == Ok(Some(value))
  {
    LastWriteWins(map[], ws, i);
  }

  /** After a batch of writes is committed, a key no write touched still reads as before. */
  lemma UnwrittenKeyReadsAsBefore<K, V>(store: KvStoreAccessor, m: map<StoreKey, Bytes>, ws: seq<Write>,
                                        col: Column<K, V>, key: K)
    requires store.data == m + Staged(map[], ws)
    requires forall j | 0 <= j < |ws| :: ws[j].key != ColumnKey(col.id, col.keySerializer.serialize(key))
    ensures var sk := ColumnKey(col.id, col.keySerializer.serialize(key));
      && (sk in store.data <==> sk in m)
      && (sk in m ==> store.data[sk] == m[sk])
  {
    UnwrittenKeyKept(map[], ws, ColumnKey(col.id, col.keySerializer.serialize(key)));
  }

  /** After a commit, the raw read of a key put typed returns the serialized value. */
  lemma ReadsLastCommittedPutRaw<K, V>(store: KvStoreAccessor, m: map<StoreKey, Bytes>, ws: seq<Write>, i: nat,
                                       col: Column<K, V>, key: K, value: V)
    requires store.data == m + Staged(map[], ws)
    requires i < |ws| && ws[i] == ColumnWrite(col, key, value)
    requires forall j | i < j < |ws| :: ws[j].key != ws[i].key
    ensures store.GetRaw(col, key) == Some(col.valueSerializer.serialize(value))
  {
    LastWriteWins(map[], ws, i);
  }

  /**
   * After a commit, a key whose last write was raw bytes reads back raw as
   * those bytes, and typed as what the bytes decode to, or a fault when
   * they do not decode.
   */
  lemma ReadsLastCommittedRawPut<K, V>(store: KvStoreAccessor, m: map<StoreKey, Bytes>, ws: seq<Write>, i: nat,
                                       col: Column<K, V>, key: K, bytes: Bytes)
    requires store.data == m + Staged(map[], ws)
    requires i < |ws| && ws[i] == Write(ColumnKey(col.id, col.keySerializer.serialize(key)), bytes)
    requires forall j | i < j < |ws| :: ws[j].key != ws[i].key
    ensures store.GetRaw(col, key) == Some(bytes)
    ensures col.valueSerializer.deserialize(bytes).Some? ==>
      store.Get(col, key) == Ok(Some(col.valueSerializer.deserialize(bytes).value))
    ensures col.valueSerializer.deserialize(bytes).None? ==> store.Get(col, key) == Err(SerializationFault)
  {
    LastWriteWins(map[], ws, i);
  }

  /**
   * After a commit, a variable's typed read returns the value of its last
   * put, for a serializer that round-trips, and its raw read the
   * serialized value.
   */
  lemma ReadsLastCommittedVariablePut<T>(store: KvStoreAccessor, m: map<StoreKey, Bytes>, ws: seq<Write>, i: nat,
                                         variable: Variable<T>, value: T)
    requires store.data == m + Staged(map[], ws)
    requires i < |ws| && ws[i] == VariableWrite(variable, value)
    requires forall j | i < j < |ws| :: ws[j].key != ws[i].key
    requires variable.serializer.deserialize(variable.serializer.serialize(value)) == Some(value)
    ensures store.GetVariable(variable) == Ok(Some(value))
    ensures store.GetVariableRaw(variable) == Some(variable.serializer.serialize(value))
  {
    LastWriteWins(map[], ws, i);
  }

  /**
   * After a commit, a variable whose last write was raw bytes reads back
   * raw as those bytes, and typed as what the bytes decode to, or a fault
   * when they do not decode.
   */
  lemma ReadsLastCommittedVariableRawPut<T>(store: KvStoreAccessor, m: map<StoreKey, Bytes>, ws: seq<Write>, i: nat,
                                            variable: Variable<T>, bytes: Bytes)
    requires store.data == m + Staged(map[], ws)
    requires i < |ws| && ws[i] == Write(VariableKey(variable.id), bytes)
    requires forall j | i < j < |ws| :: ws[j].key != ws[i].key
    ensures store.GetVariableRaw(variable) == Some(bytes)
    ensures variable.serializer.deserialize(bytes).Some? ==>
      store.GetVariable(variable) == Ok(Some(variable.serializer.deserialize(bytes).value))
    ensures variable.serializer.deserialize(bytes).None? ==> store.GetVariable(variable) == Err(SerializationFault)
  {
    LastWriteWins(map[], ws, i);
  }

  // ------------------------------------------------------------------
  // The transaction

  datatype TransactionState = Open | Committed | Closed

  class KvStoreTransaction {
    const store: KvStoreAccessor
    /** Writes staged so far, keyed by where they go; not visible in `store` before commit. */
    var pending: map<StoreKey, Bytes>
    var state: TransactionState

    constructor (store: KvStoreAccessor)
      ensures this.store == store && state == Open && pending == map[]
    {
      this.store := store;
      pending := map[];
      state := Open;
    }

    /**
     * Stages one write; a transaction that is no longer open refuses it
     * (a usage error) and changes nothing.
     */
    method Apply(w: Write) returns (ok: bool)
      modifies this
      ensures ok == (state == Open) && state == old(state)
      ensures pending == if ok then old(pending)[w.key := w.value] else old(pending)
    {
      ok := state == Open;
      if ok {
        pending := pending[w.key := w.value];
      }
    }

    method Put<K, V>(col: Column<K, V>, key: K, value: V) returns (ok: bool)
      modifies this
      ensures ok == (state == Open) && state == old(state)
      ensures pending == if ok
        then old(pending)[ColumnKey(col.id, col.keySerializer.serialize(key)) := col.valueSerializer.serialize(value)]
        else old(pending)
    {
      ok := Apply(ColumnWrite(col, key, value));
    }

    method PutRaw<K, V>(col: Column<K, V>, key: Bytes, value: Bytes) returns (ok: bool)
      modifies this
      ensures ok == (state == Open) && state == old(state)
      ensures pending == if ok then old(pending)[ColumnKey(col.id, key) := value] else old(pending)
    {
      ok := Apply(Write(ColumnKey(col.id, key), value));
    }

    method PutVariable<T>(variable: Variable<T>, value: T) returns (ok: bool)
      modifies this
      ensures ok == (state == Open) && state == old(state)
      ensures pending == if ok then old(pending)[VariableKey(variable.id) := variable.serializer.serialize(value)] else old(pending)
    {
      ok := Apply(VariableWrite(variable, value));
    }

    method PutVariableRaw<T>(variable: Variable<T>, value: Bytes) returns (ok: bool)
      modifies this
      ensures ok == (state == Open) && state == old(state)
      ensures pending == if ok then old(pending)[VariableKey(variable.id) := value] else old(pending)
    {
      ok := Apply(Write(VariableKey(variable.id), value));
    }

    /**
     * Applies every staged write to the store at once. Only an open
     * transaction commits; otherwise neither it nor the store changes.
     */
    method Commit() returns (ok: bool)
      modifies this, store
      ensures ok == (old(state) == Open)
      ensures state == if ok then Committed else old(state)
      ensures store.data == if ok then old(store.data) + old(pending) else old(store.data)
      ensures pending == old(pending)
    {
      ok := state == Open;
      if ok {
        store.data := store.data + pending;
        state := Committed;
      }
    }

    /** Closing an open transaction discards its writes; closing again does nothing. */
    method Close()
      modifies this
      ensures state == if old(state) == Open then Closed else old(state)
      ensures pending == if old(state) == Open then map[] else old(pending)
    {
      if state == Open {
        state := Closed;
        pending := map[];
      }
    }
  }
}
