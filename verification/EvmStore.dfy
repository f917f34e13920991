/** The EVM store: a write-back cache over evm.db, and a history of state roots kept in evm.db itself. */
module EvmStores {
  import opened Prelude
  import opened Keys
  import opened SortedKeys
  import opened KeyValue

  const VM_PREFIX: Bytes := [118, 109]
  const ROOT_KEY: Bytes := [118, 109, 114, 111, 111, 116]
  const EVM_ROOT_PREFIX: Bytes := [101, 118, 109, 114, 111, 111, 116]
  const ROOT_HASH_KEY: Bytes := PrefixKey(VM_PREFIX, ROOT_KEY)
  const ROOT_RANGE: Bytes := PrefixKey(VM_PREFIX, EVM_ROOT_PREFIX)

  /** Stands for an empty root in the history. */
  const DEFAULT_ROOT: Bytes := [1]

  /** The contents of the store. A nil root is the empty string. */
  datatype Evm = Evm(
    db: Map, cache: map<Bytes, CacheItem>, rootHash: Bytes, lastSavedRoot: Bytes, rootCache: map<nat, Bytes>,
    version: nat)

  function RootKey(version: nat): Bytes {
    PrefixKey(ROOT_RANGE, BigEndian(version, 8))
  }

  function MarkedRoot(root: Bytes): (r: Bytes)
    ensures r != []
  {
    if root == [] then DEFAULT_ROOT else root
  }

  function EvmSet(e: Evm, key: Bytes, val: Bytes): Evm {
    if key == ROOT_HASH_KEY then e.(rootHash := val) else e.(cache := e.cache[key := CacheItem(val, false)])
  }

  function EvmDelete(e: Evm, key: Bytes): Evm {
    if key == ROOT_HASH_KEY then e.(rootHash := []) else e.(cache := e.cache[key := CacheItem([], true)])
  }

  /*** The history of roots ***/

  /** The root recorded at the greatest version not above `v`. */
  function RootAt(db: Map, v: nat): Option<Bytes> {
    if RootKey(v) in db then Some(db[RootKey(v)]) else if v == 0 then None else RootAt(db, v - 1)
  }

  /** The version it was recorded at, 0 when there is none. */
  function RootVersion(db: Map, v: nat): nat {
    if RootKey(v) in db || v == 0 then v else RootVersion(db, v - 1)
  }

  /** The keys reserved for recorded roots. */
  predicate RootArea(k: Bytes) { k == ROOT_RANGE || HasPrefix(k, ROOT_RANGE) }

  /** There the database holds nothing but recorded roots. */
  ghost predicate OnlyRoots(db: Map) {
    forall k | k in db && RootArea(k) :: exists v: nat :: v <= MAX_INT64 && k == RootKey(v)
  }

  lemma RootKeyOrder(v: nat, w: nat)
    requires v <= MAX_INT64 && w <= MAX_INT64
    ensures Less(RootKey(v), RootKey(w)) <==> v < w
    ensures RootKey(v) == RootKey(w) <==> v == w
  {
    Pow256Values();
    LessIsStrict(RootKey(v), RootKey(w));
    if v < w {
      BigEndianOrders(v, w, 8, [], []);
      LessBehindPrefix(ROOT_RANGE + [0], BigEndian(v, 8) + [], BigEndian(w, 8) + []);
      assert BigEndian(v, 8) + [] == BigEndian(v, 8) && BigEndian(w, 8) + [] == BigEndian(w, 8);
    } else if w < v {
      BigEndianOrders(w, v, 8, [], []);
      LessBehindPrefix(ROOT_RANGE + [0], BigEndian(w, 8) + [], BigEndian(v, 8) + []);
      assert BigEndian(v, 8) + [] == BigEndian(v, 8) && BigEndian(w, 8) + [] == BigEndian(w, 8);
    }
  }

  /** The range searched for `target` holds exactly the roots of versions up to it. */
  lemma RootSearchRange(v: nat, target: nat)
    requires v <= MAX_INT64 && target <= MAX_INT64
    ensures InRange(RootKey(v), ROOT_RANGE, PrefixEnd(RootKey(target))) <==> v <= target
  {
    var k, t, end := RootKey(v), RootKey(target), PrefixEnd(RootKey(target));
    assert k == ROOT_RANGE + ([0] + BigEndian(v, 8));
    ExtensionIsAbove(ROOT_RANGE, [0] + BigEndian(v, 8));
    LessIsStrict(ROOT_RANGE, k);
    PrefixRangeIsExact(t, t);
    PrefixRangeIsExact(t, k);
    RootKeyOrder(v, target);
    RootKeyOrder(target, v);
    LessIsStrict(k, t);
    LessIsTotal(k, t);
    assert t <= k ==> t == k;
    if v < target && end.Some? {
      LessIsTransitive(k, t, end.value);
    }
  }

  /** Everything in that range is reserved for roots. */
  lemma RootSearchRangeIsRoots(k: Bytes, target: nat)
    requires InRange(k, ROOT_RANGE, PrefixEnd(RootKey(target)))
    ensures RootArea(k)
  {
    var t := RootKey(target);
    RootKeyInRange(target);
    PrefixRangeIsExact(t, k);
    LessIsTotal(k, t);
    if t <= k {
      assert ROOT_RANGE + [0] <= k;
    } else if k != ROOT_RANGE {
      assert Less(k, t) by { LessIsStrict(k, t); }
      BelowIsUnder(ROOT_RANGE, k, t);
      var rest := k[|ROOT_RANGE|..];
      assert k == ROOT_RANGE + rest && [0][1..] == [] && !Less(rest, [0]);
      LessBehindPrefix(ROOT_RANGE, rest, [0]);
      BelowIsUnder(ROOT_RANGE + [0], k, t);
    }
  }

  /** A key between a prefix and a key under it lies under the prefix too. */
  lemma BelowIsUnder(p: Bytes, k: Bytes, t: Bytes)
    requires !Less(k, p) && Less(k, t) && p <= t
    ensures p <= k
  {
    PrefixRangeIsExact(p, t);
    PrefixRangeIsExact(p, k);
    if PrefixEnd(p).Some? { LessIsTransitive(k, t, PrefixEnd(p).value); }
  }

  lemma {:induction false} RootAtFound(db: Map, v: nat, w: nat)
    requires w <= v && RootKey(w) in db && forall x: nat | w < x <= v :: RootKey(x) !in db
    ensures RootAt(db, v) == Some(db[RootKey(w)]) && RootVersion(db, v) == w
  {
    if w < v { RootAtFound(db, v - 1, w); }
  }

  lemma {:induction false} RootAtMissing(db: Map, v: nat)
    requires forall x: nat | x <= v :: RootKey(x) !in db
    ensures RootAt(db, v) == None && RootVersion(db, v) == 0
  {
    if v > 0 { RootAtMissing(db, v - 1); }
  }

  /** Versions up to `v` see the same roots in both databases. */
  lemma {:induction false} RootAtCongruent(db: Map, db': Map, v: nat)
    requires forall x: nat | x <= v :: (RootKey(x) in db <==> RootKey(x) in db') &&
                                       (RootKey(x) in db ==> db[RootKey(x)] == db'[RootKey(x)])
    ensures RootAt(db, v) == RootAt(db', v)
  {
    if v > 0 { RootAtCongruent(db, db', v - 1); }
  }

  /*** Committing ***/

  function CacheWithRoot(e: Evm, version: nat): map<Bytes, CacheItem> {
    if MarkedRoot(e.rootHash) == e.lastSavedRoot then e.cache
    else e.cache[RootKey(version) := CacheItem(MarkedRoot(e.rootHash), false)]
  }

  /** Write the cache to the database; record the root if it changed. The LRU forgets all but `kept`. */
  function Committed(e: Evm, version: nat, kept: set<nat>): Evm {
    var root := MarkedRoot(e.rootHash);
    var recent := map v | v in e.rootCache && v in kept :: e.rootCache[v];
    Evm(Overlay(e.db, CacheWithRoot(e, version)), map[], e.rootHash, root, recent[version := root], version)
  }

  /** Load the store at a version; fails when no root is recorded up to it. */
  function Loaded(db: Map, rootCache: map<nat, Bytes>, target: nat): Option<Evm> {
    var root := RootAt(db, target);
    if root.None? && target > 0 then None
    else
      var r := if root.None? || root.value == DEFAULT_ROOT then [] else root.value;
      Some(Evm(db, map[], r, r, rootCache[target := r], RootVersion(db, target)))
  }

  /** The root of a version: from the LRU if it still has it, else from the history. */
  function RootLookedUp(rootCache: map<nat, Bytes>, db: Map, version: nat): Bytes {
    if version in rootCache then rootCache[version]
    else if RootAt(db, version).Some? then RootAt(db, version).value else []
  }

  /** Version `w` is the last one up to the target at which a root is recorded. */
  ghost predicate LastRecorded(db: Map, target: nat, w: nat) {
    w <= target && RootKey(w) in db && forall x: nat | w < x <= target :: RootKey(x) !in db
  }

  lemma {:induction false} SomeLastRecorded(db: Map, target: nat, v: nat) returns (w: nat)
    requires v <= target && RootKey(v) in db
    ensures LastRecorded(db, target, w)
  {
    if RootKey(target) in db {
      w := target;
    } else {
      w := SomeLastRecorded(db, target - 1, v);
    }
  }

  /**
   * Loading fails exactly when no root is recorded up to a version above 0. Else the store comes up with the root
   * recorded last, the marker being the empty root, and knows where it was recorded.
   */
  lemma LoadingMeans(db: Map, rootCache: map<nat, Bytes>, target: nat)
    ensures Loaded(db, rootCache, target).None? <==> target > 0 && forall v: nat | v <= target :: RootKey(v) !in db
    ensures forall w: nat | LastRecorded(db, target, w) ::
              && Loaded(db, rootCache, target).Some?
              && var e := Loaded(db, rootCache, target).value;
              && e.version == w && e.rootHash == e.lastSavedRoot && e.db == db && e.cache == map[]
              && e.rootHash == if db[RootKey(w)] == DEFAULT_ROOT then [] else db[RootKey(w)]
  {
    forall w: nat | LastRecorded(db, target, w)
      ensures RootAt(db, target) == Some(db[RootKey(w)]) && RootVersion(db, target) == w
    {
      RootAtFound(db, target, w);
    }
    if v: nat :| v <= target && RootKey(v) in db {
      var w := SomeLastRecorded(db, target, v);
    } else {
      RootAtMissing(db, target);
    }
  }

  /** The client leaves the bookkeeping keys alone. */
  predicate NoRootsCached(e: Evm) {
    && ROOT_HASH_KEY !in e.cache
    && forall k | k in e.cache :: !RootArea(k)
  }

  lemma RootKeyInRange(v: nat)
    ensures ROOT_RANGE <= RootKey(v) && ROOT_RANGE + [0] <= RootKey(v) && RootArea(RootKey(v))
  {
    assert RootKey(v)[..|ROOT_RANGE|] == ROOT_RANGE;
  }

  /** A commit touches one root entry at most: its own version's. */
  lemma CommitTouchesOneRoot(e: Evm, version: nat, kept: set<nat>, v: nat)
    requires NoRootsCached(e) && version <= MAX_INT64 && v <= MAX_INT64
    ensures var db := Committed(e, version, kept).db; var root := MarkedRoot(e.rootHash);
      if v == version && root != e.lastSavedRoot then RootKey(v) in db && db[RootKey(v)] == root
      else (RootKey(v) in db <==> RootKey(v) in e.db) && (RootKey(v) in db ==> db[RootKey(v)] == e.db[RootKey(v)])
  {
    RootKeyInRange(v);
    RootKeyOrder(v, version);
  }

  lemma CommitKeepsOnlyRoots(e: Evm, version: nat, kept: set<nat>)
    requires NoRootsCached(e) && OnlyRoots(e.db) && version <= MAX_INT64
    ensures OnlyRoots(Committed(e, version, kept).db)
  {
    var db := Committed(e, version, kept).db;
    forall k | k in db && RootArea(k)
      ensures exists v: nat :: v <= MAX_INT64 && k == RootKey(v)
    {
      assert k in e.db || k == RootKey(version);
    }
  }

  /** The roots recorded before a commit stay; from its version on the history shows the committed root. */
  lemma CommitExtendsHistory(e: Evm, version: nat, kept: set<nat>, v: nat)
    requires NoRootsCached(e) && 1 <= version <= MAX_INT64 && v <= MAX_INT64
    requires forall x: nat | version <= x <= MAX_INT64 :: RootKey(x) !in e.db
    requires e.lastSavedRoot == MarkedRoot(e.rootHash) ==> RootAt(e.db, version - 1) == Some(e.lastSavedRoot)
    ensures RootAt(Committed(e, version, kept).db, v)
         == if v < version then RootAt(e.db, v) else Some(MarkedRoot(e.rootHash))
    decreases v
  {
    var db := Committed(e, version, kept).db;
    if v < version {
      forall x: nat | x <= v
        ensures (RootKey(x) in e.db <==> RootKey(x) in db) && (RootKey(x) in db ==> db[RootKey(x)] == e.db[RootKey(x)])
      {
        CommitTouchesOneRoot(e, version, kept, x);
      }
      RootAtCongruent(e.db, db, v);
    } else {
      CommitTouchesOneRoot(e, version, kept, v);
      CommitExtendsHistory(e, version, kept, v - 1);
    }
  }

  /*** A run of commits ***/

  /** One block: its version, the root it leaves behind, its other writes, and what the LRU keeps afterwards. */
  datatype Block = Block(version: nat, root: Bytes, writes: map<Bytes, CacheItem>, kept: set<nat>)

  predicate ClientWrites(writes: map<Bytes, CacheItem>) {
    ROOT_HASH_KEY !in writes && forall k | k in writes :: !RootArea(k)
  }

  /** Versions increase, and clients leave the bookkeeping keys alone. */
  predicate IncreasingVersions(blocks: seq<Block>) {
    && (forall i | 0 <= i < |blocks| :: 1 <= blocks[i].version <= MAX_INT64 && ClientWrites(blocks[i].writes))
    && (forall i, j | 0 <= i < j < |blocks| :: blocks[i].version < blocks[j].version)
  }

  /** The store as a block leaves it, before it is committed. */
  function Written(e: Evm, b: Block): Evm {
    e.(rootHash := b.root, cache := e.cache + b.writes)
  }

  /** The store after writing and committing the blocks one by one. */
  function AfterBlocks(e: Evm, blocks: seq<Block>): Evm {
    if blocks == [] then e
    else
      var last := blocks[|blocks| - 1];
      Committed(Written(AfterBlocks(e, blocks[..|blocks| - 1]), last), last.version, last.kept)
  }

  /** The full history: the root in force at the last block not above `v`. */
  function FullHistory(blocks: seq<Block>, v: nat): Option<Bytes> {
    if blocks == [] then None
    else
      var last := blocks[|blocks| - 1];
      if last.version <= v then Some(MarkedRoot(last.root)) else FullHistory(blocks[..|blocks| - 1], v)
  }

  /** A store that has recorded no root yet. */
  ghost predicate NewStore(e: Evm) {
    NoRootsCached(e) && e.lastSavedRoot == [] && forall k | k in e.db :: !RootArea(k)
  }

  lemma {:induction false} BlocksShape(e: Evm, blocks: seq<Block>)
    requires NoRootsCached(e)
    ensures NoRootsCached(AfterBlocks(e, blocks))
    ensures blocks != [] ==> AfterBlocks(e, blocks).lastSavedRoot == MarkedRoot(blocks[|blocks| - 1].root)
  {
    if blocks != [] { BlocksShape(e, blocks[..|blocks| - 1]); }
  }

  /** No root is recorded beyond the last block. */
  lemma {:induction false} NoRootsBeyond(e: Evm, blocks: seq<Block>, v: nat)
    requires NewStore(e) && IncreasingVersions(blocks) && v <= MAX_INT64
    requires blocks != [] ==> blocks[|blocks| - 1].version < v
    ensures RootKey(v) !in AfterBlocks(e, blocks).db
  {
    RootKeyInRange(v);
    if blocks != [] {
      var init, last := blocks[..|blocks| - 1], blocks[|blocks| - 1];
      NoRootsBeyond(e, init, v);
      BlocksShape(e, init);
      CommitTouchesOneRoot(Written(AfterBlocks(e, init), last), last.version, last.kept, v);
    }
  }

  lemma NothingBeyond(e: Evm, blocks: seq<Block>, v: nat)
    requires NewStore(e) && IncreasingVersions(blocks) && (blocks != [] ==> blocks[|blocks| - 1].version < v)
    ensures forall x: nat | v <= x <= MAX_INT64 :: RootKey(x) !in AfterBlocks(e, blocks).db
  {
    forall x: nat | v <= x <= MAX_INT64
      ensures RootKey(x) !in AfterBlocks(e, blocks).db
    {
      NoRootsBeyond(e, blocks, x);
    }
  }

  lemma NothingRecorded(e: Evm, v: nat)
    requires NewStore(e)
    ensures RootAt(e.db, v) == None
  {
    forall x: nat | x <= v
      ensures RootKey(x) !in e.db
    {
      RootKeyInRange(x);
    }
    RootAtMissing(e.db, v);
  }

  lemma {:induction false} BlocksRecorded(e: Evm, blocks: seq<Block>, v: nat)
    requires NewStore(e) && IncreasingVersions(blocks) && v <= MAX_INT64
    ensures RootAt(AfterBlocks(e, blocks).db, v) == FullHistory(blocks, v)
  {
    if blocks == [] {
      NothingRecorded(e, v);
    } else {
      var init, last := blocks[..|blocks| - 1], blocks[|blocks| - 1];
      LastOfBlocks(blocks);
      BlocksRecorded(e, init, v);
      BlocksRecorded(e, init, last.version - 1);
      BlocksShape(e, init);
      NothingBeyond(e, init, last.version);
      if init != [] { LastBlockInForce(init, last.version - 1); }
      StartsUnsaved(e, init);
      BlockRecorded(AfterBlocks(e, init), last, v);
    }
  }

  lemma LastOfBlocks(blocks: seq<Block>)
    requires IncreasingVersions(blocks) && blocks != []
    ensures var init, last := blocks[..|blocks| - 1], blocks[|blocks| - 1];
      && IncreasingVersions(init) && 1 <= last.version <= MAX_INT64 && ClientWrites(last.writes)
      && (init != [] ==> init[|init| - 1].version < last.version)
  {
  }

  lemma StartsUnsaved(e: Evm, blocks: seq<Block>)
    requires NewStore(e)
    ensures blocks == [] ==> AfterBlocks(e, blocks).lastSavedRoot == []
  {
  }

  /** One block more: the history up to it stays, and from it on its root is in force. */
  lemma BlockRecorded(e: Evm, b: Block, v: nat)
    requires NoRootsCached(e) && ClientWrites(b.writes) && 1 <= b.version <= MAX_INT64 && v <= MAX_INT64
    requires forall x: nat | b.version <= x <= MAX_INT64 :: RootKey(x) !in e.db
    requires e.lastSavedRoot == [] || RootAt(e.db, b.version - 1) == Some(e.lastSavedRoot)
    ensures RootAt(Committed(Written(e, b), b.version, b.kept).db, v)
         == if v < b.version then RootAt(e.db, v) else Some(MarkedRoot(b.root))
  {
    CommitExtendsHistory(Written(e, b), b.version, b.kept, v);
  }

  lemma LastBlockInForce(blocks: seq<Block>, v: nat)
    requires blocks != [] && blocks[|blocks| - 1].version <= v
    ensures FullHistory(blocks, v) == Some(MarkedRoot(blocks[|blocks| - 1].root))
  {
  }

  /**
   * Although a root is written only when it changes, looking one up returns, for every version from the
   * first commit on, the root in force then.
   */
  lemma DeltaHistoryIsFullHistory(e: Evm, blocks: seq<Block>, v: nat)
    requires NewStore(e) && IncreasingVersions(blocks) && v <= MAX_INT64
    ensures RootAt(AfterBlocks(e, blocks).db, v) == FullHistory(blocks, v)
    ensures RootAt(AfterBlocks(e, blocks).db, v).Some? <==> blocks != [] && blocks[0].version <= v
  {
    BlocksRecorded(e, blocks, v);
    HistoryStarts(blocks, v);
  }

  /** The root of some block changes at the version: it differs from that of the block before, or is the first. */
  predicate ChangesAt(blocks: seq<Block>, v: nat) {
    blocks != [] &&
    var init, last := blocks[..|blocks| - 1], blocks[|blocks| - 1];
    || (last.version == v && (init == [] || MarkedRoot(last.root) != MarkedRoot(init[|init| - 1].root)))
    || ChangesAt(init, v)
  }

  lemma {:induction false} NoChangeBeyond(blocks: seq<Block>, v: nat)
    requires IncreasingVersions(blocks) && (blocks != [] ==> blocks[|blocks| - 1].version < v)
    ensures !ChangesAt(blocks, v)
  {
    if blocks != [] { NoChangeBeyond(blocks[..|blocks| - 1], v); }
  }

  /** A root is written exactly when it changes. */
  lemma {:induction false} RecordedIffChanged(e: Evm, blocks: seq<Block>, v: nat)
    requires NewStore(e) && IncreasingVersions(blocks) && v <= MAX_INT64
    ensures RootKey(v) in AfterBlocks(e, blocks).db <==> ChangesAt(blocks, v)
  {
    RootKeyInRange(v);
    if blocks != [] {
      var init, last := blocks[..|blocks| - 1], blocks[|blocks| - 1];
      RecordedIffChanged(e, init, v);
      BlocksShape(e, init);
      CommitTouchesOneRoot(Written(AfterBlocks(e, init), last), last.version, last.kept, v);
      if v == last.version {
        NoRootsBeyond(e, init, v);
        NoChangeBeyond(init, v);
      }
    }
  }

  lemma {:induction false} HistoryStarts(blocks: seq<Block>, v: nat)
    requires IncreasingVersions(blocks)
    ensures FullHistory(blocks, v).Some? <==> blocks != [] && blocks[0].version <= v
  {
    if blocks != [] && blocks[|blocks| - 1].version > v { HistoryStarts(blocks[..|blocks| - 1], v); }
  }

  /*** The store ***/

  predicate Under(k: Bytes, prefix: Bytes) {
    prefix == [] || HasPrefix(k, prefix)
  }

  function Stripped(k: Bytes, prefix: Bytes): Bytes
    requires Under(k, prefix)
  {
    if prefix == [] then k else UnprefixKey(k, prefix)
  }

  function Rejoined(k: Bytes, prefix: Bytes): Bytes {
    if prefix == [] then k else PrefixKey(prefix, k)
  }

  lemma ListedEntries(view: Map, prefix: Bytes, keys: seq<Bytes>, ret: seq<RangeEntry>)
    requires forall k | k in view :: Under(k, prefix)
    requires Ascending(keys) && (forall k :: k in keys <==> k in view) && |ret| == |keys|
    requires forall j | 0 <= j < |keys| :: ret[j] == RangeEntry(Stripped(keys[j], prefix), view[keys[j]])
    ensures forall i, j | 0 <= i < j < |ret| :: Less(ret[i].key, ret[j].key)
    ensures forall e :: e in ret <==> Lookup(view, Rejoined(e.key, prefix)) == Some(e.value)
  {
    forall i, j | 0 <= i < j < |ret|
      ensures Less(ret[i].key, ret[j].key)
    {
      StrippedOrder(keys[i], keys[j], prefix);
    }
    forall e
      ensures e in ret <==> Lookup(view, Rejoined(e.key, prefix)) == Some(e.value)
    {
      var k := Rejoined(e.key, prefix);
      if e in ret {
        var j :| 0 <= j < |ret| && ret[j] == e;
        assert keys[j] in keys;
        if prefix != [] { PrefixedKey(keys[j], prefix); }
      } else if k in view {
        var j :| 0 <= j < |keys| && keys[j] == k;
        assert Stripped(k, prefix) == e.key;
        assert ret[j] in ret;
      }
    }
  }

  /** What a range over the prefix shows: the live entries under it; the root hash entry shows the current root. */
  function RangeView(e: Evm, prefix: Bytes): (r: Map)
    ensures forall k | k in r :: Under(k, prefix)
  {
    var live := Overlay(e.db, e.cache);
    map k | k in live && Under(k, prefix) :: if k == ROOT_HASH_KEY then e.rootHash else live[k]
  }

  class EvmStore {
    var db: Map
    var cache: map<Bytes, CacheItem>
    var rootHash: Bytes
    var lastSavedRoot: Bytes
    var rootCache: map<nat, Bytes>
    var version: nat

    function View(): Evm
      reads this
    {
      Evm(db, cache, rootHash, lastSavedRoot, rootCache, version)
    }

    /** The root hash never enters the cache, and deleted entries hold nothing. */
    ghost predicate Valid()
      reads this
    {
      && ROOT_HASH_KEY !in cache
      && forall k | k in cache && cache[k].deleted :: cache[k].value == []
    }

    constructor (evmDb: Map)
      ensures Valid() && View() == Evm(evmDb, map[], [], [], map[], 0)
    {
      db, cache, rootHash, lastSavedRoot, rootCache, version := evmDb, map[], [], [], map[], 0;
    }

    method Set(key: Bytes, val: Bytes)
      requires Valid()
      modifies this
      ensures Valid() && View() == EvmSet(old(View()), key, val)
    {
      if key == ROOT_HASH_KEY {
        rootHash := val;
      } else {
        cache := cache[key := CacheItem(val, false)];
      }
    }

    method Delete(key: Bytes)
      requires Valid()
      modifies this
      ensures Valid() && View() == EvmDelete(old(View()), key)
    {
      if key == ROOT_HASH_KEY {
        rootHash := [];
      } else {
        cache := cache[key := CacheItem([], true)];
      }
    }

    /** A missing value reads as the empty string. */
    method Get(key: Bytes) returns (val: Bytes)
      requires Valid()
      ensures key == ROOT_HASH_KEY ==> val == rootHash
      ensures key != ROOT_HASH_KEY ==>
                val == var found := Lookup(Overlay(db, cache), key); if found.Some? then found.value else []
    {
      if key == ROOT_HASH_KEY {
        return rootHash;
      }
      if key in cache {
        return cache[key].value;
      }
      val := if key in db then db[key] else [];
    }

    method Has(key: Bytes) returns (b: bool)
      ensures b <==> key == ROOT_HASH_KEY || Lookup(Overlay(db, cache), key).Some?
    {
      if key == ROOT_HASH_KEY {
        return true;
      }
      if key in cache {
        return !cache[key].deleted;
      }
      b := key in db;
    }

    method Commit(version: nat, kept: set<nat>) returns (root: Bytes)
      modifies this
      ensures Valid() && View() == Committed(old(View()), version, kept) && root == MarkedRoot(old(rootHash))
      ensures this.version == version && rootHash == old(rootHash) && lastSavedRoot == root && cache == map[]
    {
      root := MarkedRoot(rootHash);
      if root != lastSavedRoot {
        cache := cache[RootKey(version) := CacheItem(root, false)];
      }
      rootCache := (map v | v in rootCache && v in kept :: rootCache[v])[version := root];
      db := WriteBatch(db, cache);
      cache := map[];
      lastSavedRoot := root;
      this.version := version;
    }

    method LoadVersion(target: nat) returns (ok: bool)
      requires OnlyRoots(db) && target <= MAX_INT64
      modifies this
      ensures Valid() && ok == Loaded(old(db), old(rootCache), target).Some?
      ensures ok ==> View() == Loaded(old(db), old(rootCache), target).value
    {
      cache := map[];
      var root, found := GetLastSavedRoot(target);
      var r := if root.None? || root.value == DEFAULT_ROOT then [] else root.value;
      rootCache := rootCache[target := r];
      if root.None? && target > 0 {
        return false;
      }
      rootHash, lastSavedRoot, version := r, r, found;
      ok := true;
    }

    /** Search the root range backwards from the target version. */
    method GetLastSavedRoot(target: nat) returns (root: Option<Bytes>, found: nat)
      requires OnlyRoots(db) && target <= MAX_INT64
      ensures root == RootAt(db, target) && found == RootVersion(db, target)
    {
      var end := PrefixRangeEnd(Some(RootKey(target)));
      var ks := Iterate(db.Keys, ROOT_RANGE, end);
      if ks == [] {
        forall x: nat | x <= target
          ensures RootKey(x) !in db
        {
          RootSearchRange(x, target);
        }
        RootAtMissing(db, target);
        return None, 0;
      }
      var key := ks[|ks| - 1];
      ghost var w := VersionOf(db, key, target);
      Pow256Values();
      BigEndianRoundTrip(w, 8);
      var version := FromBigEndian(key[|ROOT_RANGE| + 1..]);
      forall x: nat | w < x <= target
        ensures RootKey(x) !in db
      {
        RootSearchRange(x, target);
        RootKeyOrder(w, x);
        LessIsStrict(key, RootKey(x));
      }
      RootAtFound(db, target, w);
      root, found := Some(db[key]), version;
    }

    method GetSnapshot(version: nat) returns (root: Bytes)
      requires OnlyRoots(db) && version <= MAX_INT64
      ensures root == RootLookedUp(rootCache, db, version)
    {
      if version in rootCache {
        return rootCache[version];
      }
      var found, _ := GetLastSavedRoot(version);
      root := if found.Some? then found.value else [];
    }

    /** All live entries under a prefix (all entries, for the empty one), ascending and unprefixed. */
    method Range(prefix: Bytes) returns (ret: seq<RangeEntry>)
      requires Valid()
      ensures forall i, j | 0 <= i < j < |ret| :: Less(ret[i].key, ret[j].key)
      ensures forall e :: e in ret <==> Lookup(RangeView(View(), prefix), Rejoined(e.key, prefix)) == Some(e.value)
    {
      var view := RangeOverlay(prefix);
      var keys := Iterate(view.Keys, [], None);
      ret := [];
      for i := 0 to |keys|
        invariant |ret| == i
        invariant forall j | 0 <= j < i :: ret[j] == RangeEntry(Stripped(keys[j], prefix), view[keys[j]])
      {
        ret := ret + [RangeEntry(Stripped(keys[i], prefix), view[keys[i]])];
      }
      ListedEntries(view, prefix, keys, ret);
    }

    /** Collect the entries of the database under the prefix, then lay the cache over them. */
    method RangeOverlay(prefix: Bytes) returns (view: Map)
      requires Valid()
      ensures view == RangeView(View(), prefix)
    {
      var found := EntriesUnder(db, prefix);
      view := CacheOver(found, cache, prefix);
      ShownView(View(), prefix, found, view);
      if ROOT_HASH_KEY in view {
        view := view[ROOT_HASH_KEY := rootHash];
      }
    }
  }

  lemma ShownView(e: Evm, prefix: Bytes, found: Map, view: Map)
    requires ROOT_HASH_KEY !in e.cache
    requires found == map k | k in e.db && Under(k, prefix) :: e.db[k]
    requires forall k :: k in view <==> Under(k, prefix) && (if k in e.cache then !e.cache[k].deleted else k in found)
    requires forall k | k in view :: view[k] == if k in e.cache then e.cache[k].value else found[k]
    ensures RangeView(e, prefix) == if ROOT_HASH_KEY in view then view[ROOT_HASH_KEY := e.rootHash] else view
  {
    var shown := if ROOT_HASH_KEY in view then view[ROOT_HASH_KEY := e.rootHash] else view;
    forall k
      ensures (k in RangeView(e, prefix) <==> k in shown) && (k in shown ==> RangeView(e, prefix)[k] == shown[k])
    {
    }
  }

  /** Apply all cached writes and deletions to the database, in any order. */
  method WriteBatch(db: Map, cache: map<Bytes, CacheItem>) returns (r: Map)
    ensures r == Overlay(db, cache)
  {
    r := db;
    var batch := cache.Keys;
    while batch != {}
      invariant batch <= cache.Keys
      invariant forall k :: k in r <==> if k in cache && k !in batch then !cache[k].deleted else k in db
      invariant forall k | k in r :: r[k] == if k in cache && k !in batch then cache[k].value else db[k]
    {
      var k :| k in batch;
      r := if cache[k].deleted then r - {k} else r[k := cache[k].value];
      batch := batch - {k};
    }
  }

  /** The database entries under a prefix, found by iterating from the prefix on. */
  method EntriesUnder(db: Map, prefix: Bytes) returns (view: Map)
    ensures view == map k | k in db && Under(k, prefix) :: db[k]
  {
    var ks := Iterate(db.Keys, prefix, None);
    view := map[];
    for i := 0 to |ks|
      invariant forall k :: k in view <==> k in ks[..i] && Under(k, prefix)
      invariant forall k | k in view :: view[k] == db[k]
    {
      assert ks[..i + 1] == ks[..i] + [ks[i]];
      if Under(ks[i], prefix) {
        view := view[ks[i] := db[ks[i]]];
      }
    }
    assert ks[..|ks|] == ks;
    forall k | k in db && Under(k, prefix)
      ensures k in view
    {
      UnderIsAbove(k, prefix);
    }
  }

  /** Lay the cached entries under a prefix over those found in the database. */
  method CacheOver(found: Map, cache: map<Bytes, CacheItem>, prefix: Bytes) returns (view: Map)
    requires forall k | k in found :: Under(k, prefix)
    ensures forall k :: k in view <==> Under(k, prefix) && (if k in cache then !cache[k].deleted else k in found)
    ensures forall k | k in view :: view[k] == if k in cache then cache[k].value else found[k]
  {
    view := found;
    var left := cache.Keys;
    while left != {}
      invariant left <= cache.Keys
      invariant forall k :: k in view <==>
                            Under(k, prefix) && (if k in cache && k !in left then !cache[k].deleted else k in found)
      invariant forall k | k in view :: view[k] == if k in cache && k !in left then cache[k].value else found[k]
    {
      var k :| k in left;
      if Under(k, prefix) {
        view := if cache[k].deleted then view - {k} else view[k := cache[k].value];
      }
      left := left - {k};
    }
  }

  lemma UnderIsAbove(k: Bytes, prefix: Bytes)
    requires Under(k, prefix)
    ensures InRange(k, prefix, None)
  {
    PrefixRangeIsExact(prefix, k);
    assert prefix <= k by {
      if prefix != [] { assert prefix + [0] <= k; }
    }
  }

  lemma StrippedOrder(a: Bytes, b: Bytes, prefix: Bytes)
    requires Under(a, prefix) && Under(b, prefix) && Less(a, b)
    ensures Less(Stripped(a, prefix), Stripped(b, prefix))
  {
    if prefix != [] {
      PrefixedKey(a, prefix);
      PrefixedKey(b, prefix);
      LessBehindPrefix(prefix + [0], Stripped(a, prefix), Stripped(b, prefix));
    }
  }

  lemma VersionOf(db: Map, key: Bytes, target: nat) returns (w: nat)
    requires OnlyRoots(db) && key in db && target <= MAX_INT64
    requires InRange(key, ROOT_RANGE, PrefixEnd(RootKey(target)))
    ensures w <= target && key == RootKey(w) && key[|ROOT_RANGE| + 1..] == BigEndian(w, 8)
  {
    RootSearchRangeIsRoots(key, target);
    w :| w <= MAX_INT64 && key == RootKey(w);
    RootSearchRange(w, target);
  }
}
