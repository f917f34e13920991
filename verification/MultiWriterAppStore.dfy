/** The application store: an IAVL tree and an EVM store behind one interface. */
module MultiWriterAppStores {
  import opened Prelude
  import opened Keys
  import opened SortedKeys
  import opened KeyValue
  import opened EvmStores
  import opened AppStores

  /** "feature", a zero byte, "appstore:v3.1". */
  const V31_KEY: Bytes :=
    PrefixKey([102, 101, 97, 116, 117, 114, 101], [97, 112, 112, 115, 116, 111, 114, 101, 58, 118, 51, 46, 49])

  /** The settings read from the on-chain config when a version is saved. */
  datatype OnChainConfig = OnChainConfig(numEvmKeysToPrune: nat, pruneEvmKeysInterval: nat, iavlFlushInterval: nat)

  /** Is the next version written to disk? A local interval of -1 means always, 0 leaves it to the chain. */
  predicate FlushesToDisk(local: int, cfg: OnChainConfig, version: nat)
    requires local >= -1
  {
    var interval := if local == 0 then cfg.iavlFlushInterval else if local == -1 then 0 else local;
    interval == 0 || (version + 1) % interval == 0
  }

  /** Mirrored keys are pruned after every so many versions, if any at all. */
  predicate PruningDue(cfg: OnChainConfig, version: nat) {
    cfg.numEvmKeysToPrune > 0 && (cfg.pruneEvmKeysInterval == 0 || version % cfg.pruneEvmKeysInterval == 0)
  }

  /** With an interval n, local or from the chain, exactly one of any n versions in a row goes to disk. */
  lemma OneFlushPerInterval(local: int, cfg: OnChainConfig, start: nat) returns (v: nat)
    requires local >= 0 && (local == 0 ==> cfg.iavlFlushInterval > 0)
    ensures var n := if local == 0 then cfg.iavlFlushInterval else local;
      && start <= v < start + n && FlushesToDisk(local, cfg, v)
      && forall w: nat | start <= w < start + n && FlushesToDisk(local, cfg, w) :: w == v
  {
    var n: nat := if local == 0 then cfg.iavlFlushInterval else local;
    var q := start / n;
    v := start + (n - 1 - start % n);
    assert start == q * n + start % n;
    TimesSucc(q, n);
    assert v + 1 == (q + 1) * n;
    RemainderOf(q + 1, n, 0);
    forall w: nat | start <= w < start + n && FlushesToDisk(local, cfg, w)
      ensures w == v
    {
      SameMultiple(v + 1, w + 1, n);
    }
  }

  lemma SameMultiple(a: nat, b: nat, n: nat)
    requires n > 0 && a % n == 0 && b % n == 0 && a < b + n && b < a + n
    ensures a == b
  {
    assert a == (a / n) * n && b == (b / n) * n;
    if a / n < b / n {
      TimesOrder(a / n + 1, b / n, n);
      TimesSucc(a / n, n);
    } else if b / n < a / n {
      TimesOrder(b / n + 1, a / n, n);
      TimesSucc(b / n, n);
    }
  }

  /** Without an interval, or with one of -1, every version does. */
  lemma EveryVersionFlushed(local: int, cfg: OnChainConfig, version: nat)
    requires local == -1 || (local == 0 && cfg.iavlFlushInterval == 0)
    ensures FlushesToDisk(local, cfg, version)
  {
  }

  ghost function KeysOf(entries: seq<RangeEntry>): set<Bytes> {
    set e | e in entries :: PrefixKey(VM_PREFIX, e.key)
  }

  lemma OneKeyMore(entries: seq<RangeEntry>, i: nat)
    requires i < |entries|
    ensures KeysOf(entries[..i + 1]) == KeysOf(entries[..i]) + {PrefixKey(VM_PREFIX, entries[i].key)}
  {
    assert entries[..i + 1] == entries[..i] + [entries[i]];
  }

  /** Delete the listed keys one by one. */
  method WithoutEntries(tree: Map, entries: seq<RangeEntry>) returns (r: Map)
    ensures r == tree - KeysOf(entries)
  {
    r := tree;
    for i := 0 to |entries|
      invariant r == tree - KeysOf(entries[..i])
    {
      OneKeyMore(entries, i);
      r := r - {PrefixKey(VM_PREFIX, entries[i].key)};
    }
    assert entries[..|entries|] == entries;
  }

  lemma {:induction false} AsManyKeys(entries: seq<RangeEntry>, i: nat)
    requires i <= |entries| && forall a, b | 0 <= a < b < |entries| :: Less(entries[a].key, entries[b].key)
    ensures |KeysOf(entries[..i])| == i
  {
    if i > 0 {
      AsManyKeys(entries, i - 1);
      OneKeyMore(entries, i - 1);
      var k := PrefixKey(VM_PREFIX, entries[i - 1].key);
      if k in KeysOf(entries[..i - 1]) {
        var j :| 0 <= j < i - 1 && PrefixKey(VM_PREFIX, entries[j].key) == k;
        assert PrefixKey(VM_PREFIX, entries[j].key)[3..] == entries[j].key && k[3..] == entries[i - 1].key;
        LessIsStrict(entries[j].key, entries[j].key);
      }
    }
  }

  /** The listed keys are EVM keys of the tree, the lowest there are; all of them, if the list is complete. */
  lemma EvmKeysListed(tree: Map, entries: seq<RangeEntry>)
    requires IsRangeStart(entries, tree, VM_PREFIX)
    ensures |KeysOf(entries)| == |entries|
    ensures forall k | k in KeysOf(entries) :: IsVmKey(k) && k in tree
    ensures forall k, x | k in KeysOf(entries) && x in tree && IsVmKey(x) && Less(x, k) :: x in KeysOf(entries)
    ensures IsPrefixRange(entries, tree, VM_PREFIX) ==> forall k | k in tree && IsVmKey(k) :: k in KeysOf(entries)
  {
    AsManyKeys(entries, |entries|);
    assert entries[..|entries|] == entries;
    forall k | k in KeysOf(entries)
      ensures IsVmKey(k) && k in tree
    {
      assert VM_PREFIX + [0] <= k;
    }
    forall k, x | k in KeysOf(entries) && x in tree && IsVmKey(x) && Less(x, k)
      ensures x in KeysOf(entries)
    {
      var e :| e in entries && k == PrefixKey(VM_PREFIX, e.key);
      PrefixedKey(x, VM_PREFIX);
      LessBehindPrefix(VM_PREFIX + [0], UnprefixKey(x, VM_PREFIX), e.key);
      assert RangeEntry(UnprefixKey(x, VM_PREFIX), tree[x]) in entries;
    }
    forall k | k in tree && IsVmKey(k) && IsPrefixRange(entries, tree, VM_PREFIX)
      ensures k in KeysOf(entries)
    {
      PrefixedKey(k, VM_PREFIX);
      assert RangeEntry(UnprefixKey(k, VM_PREFIX), tree[k]) in entries;
    }
  }

  class MultiWriterAppStore {
    const evm: EvmStore
    const flushInterval: int
    var tree: Map
    var version: nat
    var only: bool
    var saved: map<nat, Map>
    var last: nat
    ghost var high: nat

    ghost function View(): World
      reads this, evm
    {
      World(evm.View(), tree, version, only, saved, last, None, high)
    }

    constructor (
      evm: EvmStore, tree: Map, version: nat, only: bool, saved: map<nat, Map>, flushInterval: int, ghost high: nat)
      requires flushInterval >= -1
      ensures this.evm == evm && this.flushInterval == flushInterval
      ensures View() == World(evm.View(), tree, version, only, saved, version, None, high)
    {
      this.evm, this.flushInterval := evm, flushInterval;
      this.tree, this.version, this.only, this.saved, this.last, this.high := tree, version, only, saved, version, high;
    }

    /** Load version `v` from both databases; nothing when they disagree about the EVM root. */
    static method Open(db: Map, saved: map<nat, Map>, v: nat, saveToIavl: bool, flushInterval: int, ghost w: World)
      returns (r: MultiWriterAppStore?)
      requires OnlyRoots(db) && v <= MAX_INT64 && flushInterval >= -1
      requires w.evm.db == db && w.saved == saved
      ensures (r != null) == Opens(db, TreeAt(saved, v), v)
      ensures r != null ==> fresh(r) && fresh(r.evm) && r.evm.Valid() && r.View() == Reopened(w, saveToIavl, v)
    {
      var evm := new EvmStore(db);
      var loaded := evm.LoadVersion(v);
      if !loaded {
        return null;
      }
      var tree := TreeAt(saved, v);
      var appRoot: Option<Bytes> := Lookup(tree, ROOT_KEY);
      if appRoot.None? {
        appRoot := Lookup(tree, ROOT_HASH_KEY);
        if appRoot.None? && v > 0 {
          appRoot := Some(DEFAULT_ROOT);
        }
      }
      var evmRoot, _ := evm.GetLastSavedRoot(v);
      if (if appRoot.Some? then appRoot.value else []) != (if evmRoot.Some? then evmRoot.value else []) {
        return null;
      }
      var only := !saveToIavl;
      if !only {
        only := Lookup(tree, FEATURE_KEY) == Some(ON);
      }
      r := new MultiWriterAppStore(evm, tree, v, only, saved, flushInterval, w.high);
    }

    method Set(key: Bytes, val: Bytes)
      requires evm.Valid()
      modifies this, evm
      ensures evm.Valid() && View() == AfterSet(old(View()), key, val)
    {
      if !only && key == FEATURE_KEY {
        only := val == ON;
      }
      if IsVmKey(key) {
        evm.Set(key, val);
        if !only {
          tree := tree[key := val];
        }
      } else {
        tree := tree[key := val];
      }
    }

    method Delete(key: Bytes)
      requires evm.Valid()
      modifies this, evm
      ensures evm.Valid() && View() == AfterDelete(old(View()), key)
    {
      if IsVmKey(key) {
        evm.Delete(key);
        if !only {
          tree := tree - {key};
        }
      } else {
        tree := tree - {key};
      }
    }

    method Has(key: Bytes) returns (b: bool)
      ensures b <==> key == ROOT_HASH_KEY || Read(View(), key).Some?
    {
      KeyFacts();
      if IsVmKey(key) {
        b := evm.Has(key);
      } else {
        b := key in tree;
      }
    }

    /** A missing value reads as the empty string. */
    method Get(key: Bytes) returns (val: Bytes)
      requires evm.Valid()
      ensures key == ROOT_HASH_KEY ==> val == evm.rootHash
      ensures key != ROOT_HASH_KEY ==> val == if Read(View(), key).Some? then Read(View(), key).value else []
    {
      KeyFacts();
      if IsVmKey(key) {
        val := evm.Get(key);
      } else {
        val := if key in tree then tree[key] else [];
      }
    }

    /** The client keys under a prefix are listed in ascending order, exactly as single reads would find them. */
    method Range(prefix: Bytes) returns (ret: seq<RangeEntry>)
      requires prefix != [] && evm.Valid()
      ensures forall i, j | 0 <= i < j < |ret| :: Less(ret[i].key, ret[j].key)
      ensures forall e: RangeEntry | IsClientKey(PrefixKey(prefix, e.key)) ::
                e in ret <==> Read(View(), PrefixKey(prefix, e.key)) == Some(e.value)
    {
      if prefix == VM_PREFIX || HasPrefix(prefix, VM_PREFIX) {
        ret := evm.Range(prefix);
        forall e: RangeEntry | IsClientKey(PrefixKey(prefix, e.key))
          ensures Lookup(RangeView(evm.View(), prefix), PrefixKey(prefix, e.key))
               == Read(View(), PrefixKey(prefix, e.key))
        {
          assert prefix + [0] <= PrefixKey(prefix, e.key);
          VmPrefixes(prefix, e.key);
        }
      } else {
        ret := PrefixRange(tree, prefix, None);
        forall e: RangeEntry | IsClientKey(PrefixKey(prefix, e.key))
          ensures Lookup(tree, PrefixKey(prefix, e.key)) == Read(View(), PrefixKey(prefix, e.key))
        {
          VmPrefixes(prefix, e.key);
        }
      }
    }

    /**
     * Save a version: commit the EVM store, tie its root to the tree in EVM-only mode, prune some mirrored
     * keys, save the tree, and publish it to snapshots. `answered` raw keys come back from the range query.
     */
    method SaveVersion(cfg: OnChainConfig, kept: set<nat>, answered: nat) returns (ghost pruned: set<Bytes>)
      requires flushInterval >= -1 && answered <= cfg.numEvmKeysToPrune
      modifies this, evm
      ensures evm.Valid()
      ensures var flush := FlushesToDisk(flushInterval, cfg, old(version));
        View() == Published(AfterSave(AfterCommit(old(View()), kept), pruned, flush))
      ensures forall k | k in pruned :: IsVmKey(k)
      ensures |pruned| <= cfg.numEvmKeysToPrune
      ensures only && PruningDue(cfg, old(version)) && |pruned| + 1 < answered ==> forall k | k in tree :: !IsVmKey(k)
      ensures last == version == old(version) + 1
      ensures RootLookedUp(evm.rootCache, evm.db, last) == MarkedRoot(old(evm.rootHash))
    {
      var root := evm.Commit(version + 1, kept);
      high := if high > version then high else version + 1;
      pruned := TieRoot(root, cfg, answered);
      var flush := FlushesToDisk(flushInterval, cfg, version);
      version := version + 1;
      if flush {
        saved := saved[version := tree];
      }
      last := version;
    }

    /** In EVM-only mode, name the root in the tree (from v3.1 on only if it changed) and prune. */
    method TieRoot(root: Bytes, cfg: OnChainConfig, answered: nat) returns (ghost pruned: set<Bytes>)
      requires answered <= cfg.numEvmKeysToPrune
      modifies this`tree
      ensures tree == if only then old(tree)[ROOT_KEY := root] - pruned else old(tree)
      ensures forall k | k in pruned :: IsVmKey(k)
      ensures |pruned| <= cfg.numEvmKeysToPrune
      ensures only && PruningDue(cfg, version) && |pruned| + 1 < answered ==> forall k | k in tree :: !IsVmKey(k)
    {
      pruned := {};
      if only {
        if Lookup(tree, V31_KEY) == Some(ON) {
          if Lookup(tree, ROOT_KEY) != Some(root) {
            tree := tree[ROOT_KEY := root];
          }
        } else {
          tree := tree[ROOT_KEY := root];
        }
        pruned := PruneOldEvmKeys(cfg, answered);
      }
    }

    method PruneOldEvmKeys(cfg: OnChainConfig, answered: nat) returns (ghost pruned: set<Bytes>)
      requires answered <= cfg.numEvmKeysToPrune
      modifies this`tree
      ensures tree == old(tree) - pruned
      ensures forall k | k in pruned :: IsVmKey(k) && k in old(tree)
      ensures |pruned| <= cfg.numEvmKeysToPrune
      ensures !PruningDue(cfg, version) ==> pruned == {}
      ensures PruningDue(cfg, version) && |pruned| + 1 < answered ==> forall k | k in tree :: !IsVmKey(k)
      ensures forall k, x | k in pruned && x in old(tree) && IsVmKey(x) && Less(x, k) :: x in pruned
    {
      pruned := {};
      if cfg.pruneEvmKeysInterval != 0 && version % cfg.pruneEvmKeysInterval != 0 {
        return;
      }
      if cfg.numEvmKeysToPrune > 0 {
        var entries := PrefixRange(tree, VM_PREFIX, Some(answered));
        EvmKeysListed(tree, entries);
        tree := WithoutEntries(tree, entries);
        pruned := KeysOf(entries);
      }
    }

    /** The version of the published tree, and the EVM root it is read with. */
    method GetSnapshot() returns (v: nat, root: Bytes)
      requires OnlyRoots(evm.db) && last <= MAX_INT64
      ensures v == last && root == RootLookedUp(evm.rootCache, evm.db, last)
    {
      v := last;
      root := evm.GetSnapshot(v);
    }
  }

  /** A snapshot taken after a save is of the version saved, with the root the store held before (or its marker). */
  method SaveThenSnapshot(store: MultiWriterAppStore, cfg: OnChainConfig, kept: set<nat>, answered: nat)
    returns (v: nat, root: Bytes)
    requires store.flushInterval >= -1 && answered <= cfg.numEvmKeysToPrune
    requires OnlyRoots(store.evm.db) && NoRootsCached(store.evm.View()) && store.version < MAX_INT64
    modifies store, store.evm
    ensures v == old(store.version) + 1 && root == MarkedRoot(old(store.evm.rootHash))
  {
    CommitKeepsOnlyRoots(store.evm.View(), store.version + 1, kept);
    ghost var pruned := store.SaveVersion(cfg, kept, answered);
    v, root := store.GetSnapshot();
  }

  /** A prefix leads to EVM keys exactly when it is the EVM prefix or lies under it. */
  lemma VmPrefixes(prefix: Bytes, key: Bytes)
    requires prefix != []
    ensures IsVmKey(PrefixKey(prefix, key)) <==> prefix == VM_PREFIX || HasPrefix(prefix, VM_PREFIX)
  {
    var k := PrefixKey(prefix, key);
    if prefix == VM_PREFIX {
      assert k[..3] == VM_PREFIX + [0];
    } else if |prefix| > 2 {
      assert k[..3] == prefix[..3];
    } else {
      assert k[..|prefix|] == prefix && k[|prefix|] == 0;
    }
  }
}
