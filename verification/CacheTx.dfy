/** The write-back cache that buffers the writes of one transaction. */
module CacheTxs {
  import opened Prelude
  import opened KeyValue

  datatype TempTx = TxSet(key: Bytes, value: Bytes) | TxDelete(key: Bytes)

  function Applied(m: Map, tx: TempTx): Map {
    match tx
    case TxSet(key, value) => m[key := value]
    case TxDelete(key) => m - {key}
  }

  /** The writes applied to a map directly, in order. */
  function AllApplied(m: Map, txs: seq<TempTx>): Map {
    if txs == [] then m else Applied(AllApplied(m, txs[..|txs| - 1]), txs[|txs| - 1])
  }

  function Cached(cache: map<Bytes, CacheItem>, tx: TempTx): map<Bytes, CacheItem> {
    match tx
    case TxSet(key, value) => cache[key := CacheItem(value, false)]
    case TxDelete(key) => cache[key := CacheItem([], true)]
  }

  /** What the cache holds after the writes. */
  function Summary(txs: seq<TempTx>): map<Bytes, CacheItem> {
    if txs == [] then map[] else Cached(Summary(txs[..|txs| - 1]), txs[|txs| - 1])
  }

  lemma SummaryStep(txs: seq<TempTx>, tx: TempTx, m: Map)
    ensures Summary(txs + [tx]) == Cached(Summary(txs), tx)
    ensures AllApplied(m, txs + [tx]) == Applied(AllApplied(m, txs), tx)
  {
    assert (txs + [tx])[..|txs|] == txs;
  }

  lemma OverlayStep(m: Map, cache: map<Bytes, CacheItem>, tx: TempTx)
    ensures Overlay(m, Cached(cache, tx)) == Applied(Overlay(m, cache), tx)
  {
    var l, r := Overlay(m, Cached(cache, tx)), Applied(Overlay(m, cache), tx);
    forall k
      ensures (k in l <==> k in r) && (k in l ==> l[k] == r[k])
    {
    }
  }

  /** Reading through the cache equals reading the store after applying the writes directly. */
  lemma {:induction false} CacheReadsAhead(m: Map, txs: seq<TempTx>)
    ensures Overlay(m, Summary(txs)) == AllApplied(m, txs)
  {
    if txs != [] {
      CacheReadsAhead(m, txs[..|txs| - 1]);
      OverlayStep(m, Summary(txs[..|txs| - 1]), txs[|txs| - 1]);
    }
  }

  /** The cache decides every key it holds, so applying the writes again changes nothing. */
  lemma CommitTwice(m: Map, txs: seq<TempTx>)
    ensures AllApplied(AllApplied(m, txs), txs) == AllApplied(m, txs)
  {
    CacheReadsAhead(m, txs);
    CacheReadsAhead(AllApplied(m, txs), txs);
    var once := Overlay(m, Summary(txs));
    var twice := Overlay(once, Summary(txs));
    forall k
      ensures (k in once <==> k in twice) && (k in once ==> once[k] == twice[k])
    {
    }
  }

  /** A key no write mentions keeps its value. */
  lemma {:induction false} UntouchedKey(m: Map, txs: seq<TempTx>, k: Bytes)
    requires forall tx | tx in txs :: tx.key != k
    ensures Lookup(AllApplied(m, txs), k) == Lookup(m, k)
  {
    if txs != [] {
      assert txs[|txs| - 1] in txs;
      UntouchedKey(m, txs[..|txs| - 1], k);
    }
  }

  /** An ordinary map store. */
  class KVStore {
    var m: Map

    constructor ()
      ensures m == map[]
    {
      m := map[];
    }
  }

  class CacheTx {
    const store: KVStore
    var cache: map<Bytes, CacheItem>
    var tmpTxs: seq<TempTx>

    ghost predicate Valid()
      reads this
    {
      cache == Summary(tmpTxs)
    }

    constructor (store: KVStore)
      ensures Valid() && this.store == store && tmpTxs == []
    {
      this.store := store;
      cache, tmpTxs := map[], [];
    }

    method Set(key: Bytes, value: Bytes)
      requires Valid()
      modifies this
      ensures Valid() && tmpTxs == old(tmpTxs) + [TxSet(key, value)]
    {
      SummaryStep(tmpTxs, TxSet(key, value), map[]);
      tmpTxs := tmpTxs + [TxSet(key, value)];
      cache := cache[key := CacheItem(value, false)];
    }

    method Delete(key: Bytes)
      requires Valid()
      modifies this
      ensures Valid() && tmpTxs == old(tmpTxs) + [TxDelete(key)]
    {
      SummaryStep(tmpTxs, TxDelete(key), map[]);
      tmpTxs := tmpTxs + [TxDelete(key)];
      cache := cache[key := CacheItem([], true)];
    }

    method Has(key: Bytes) returns (b: bool)
      requires Valid()
      ensures b <==> key in AllApplied(store.m, tmpTxs)
    {
      CacheReadsAhead(store.m, tmpTxs);
      if key in cache {
        return !cache[key].deleted;
      }
      b := key in store.m;
    }

    /** A missing value reads as the empty string. */
    method Get(key: Bytes) returns (value: Bytes)
      requires Valid()
      ensures value == ValueOr(AllApplied(store.m, tmpTxs), key)
    {
      CacheReadsAhead(store.m, tmpTxs);
      DeletedIsEmpty(tmpTxs, key);
      if key in cache {
        return cache[key].value;
      }
      value := ValueOr(store.m, key);
    }

    /** Replay the writes on the store. The buffered writes stay. */
    method Commit()
      requires Valid()
      modifies store
      ensures store.m == AllApplied(old(store.m), tmpTxs)
    {
      for i := 0 to |tmpTxs|
        invariant store.m == AllApplied(old(store.m), tmpTxs[..i])
      {
        SummaryStep(tmpTxs[..i], tmpTxs[i], old(store.m));
        assert tmpTxs[..i + 1] == tmpTxs[..i] + [tmpTxs[i]];
        match tmpTxs[i]
        case TxSet(key, value) => store.m := store.m[key := value];
        case TxDelete(key) => store.m := store.m - {key};
      }
      assert tmpTxs[..|tmpTxs|] == tmpTxs;
    }

    /** Forget the writes; the store is not touched. */
    method Rollback()
      modifies this
      ensures Valid() && tmpTxs == [] && cache == map[]
    {
      tmpTxs, cache := [], map[];
    }
  }

  function ValueOr(m: Map, k: Bytes): Bytes {
    if k in m then m[k] else []
  }

  lemma {:induction false} DeletedIsEmpty(txs: seq<TempTx>, k: Bytes)
    ensures k in Summary(txs) && Summary(txs)[k].deleted ==> Summary(txs)[k].value == []
  {
    if txs != [] { DeletedIsEmpty(txs[..|txs| - 1], k); }
  }
}
