/**
 * The two-database application store as a state machine: client writes, the sub-steps of saving a
 * version, deleting old versions, and a crash followed by a reopen.
 */
module AppStores {
  import opened Prelude
  import opened Keys
  import opened KeyValue
  import opened EvmStores

  /** "feature", a zero byte, "db:evm". */
  const FEATURE_KEY: Bytes := PrefixKey([102, 101, 97, 116, 117, 114, 101], [100, 98, 58, 101, 118, 109])
  const ON: Bytes := [1]

  predicate IsVmKey(k: Bytes) { HasPrefix(k, VM_PREFIX) }

  predicate FeatureOn(tree: Map) { FEATURE_KEY in tree && tree[FEATURE_KEY] == ON }

  datatype World = World(
    evm: EvmStores.Evm,
    tree: Map,                 // the working IAVL tree
    version: nat,              // its last saved version
    only: bool,                // EVM state goes to the EVM store alone
    saved: map<nat, Map>,      // IAVL versions that reached the disk
    last: nat,                 // version of the last saved tree, as snapshots see it
    pending: Option<Bytes>,    // the EVM store has committed this root; the IAVL tree is not saved yet
    high: nat)                 // history: the highest version the EVM store ever committed

  datatype Step =
    | SetKey(key: Bytes, val: Bytes)
    | DeleteKey(key: Bytes)
    | CommitEvm(kept: set<nat>)
    | SaveTree(pruned: set<Bytes>, flush: bool)
    | PublishTree
    | DropVersion(v: nat)
    | CrashAndReopen(v: nat)

  /*** Opening ***/

  /** The EVM root the IAVL tree vouches for. A missing value is the empty string. */
  function AppRoot(tree: Map, version: nat): Bytes {
    if ROOT_KEY in tree then tree[ROOT_KEY]
    else if ROOT_HASH_KEY in tree then tree[ROOT_HASH_KEY]
    else if version > 0 then DEFAULT_ROOT else []
  }

  function EvmRoot(db: Map, version: nat): Bytes {
    if RootAt(db, version).Some? then RootAt(db, version).value else []
  }

  /** The EVM store loads, and both databases name the same root. */
  predicate Opens(db: Map, tree: Map, version: nat) {
    Loaded(db, map[], version).Some? && AppRoot(tree, version) == EvmRoot(db, version)
  }

  function TreeAt(saved: map<nat, Map>, v: nat): Map {
    if v in saved then saved[v] else map[]
  }

  /** Versions a restart can load: any on disk, or the empty tree when nothing was saved. */
  predicate Loadable(saved: map<nat, Map>, v: nat) {
    v in saved || (v == 0 && saved == map[])
  }

  function Reopened(w: World, saveToIavl: bool, v: nat): World
    requires Opens(w.evm.db, TreeAt(w.saved, v), v)
  {
    var tree := TreeAt(w.saved, v);
    World(Loaded(w.evm.db, map[], v).value, tree, v, !saveToIavl || FeatureOn(tree), w.saved, v, None, w.high)
  }

  function Fresh(saveToIavl: bool): World {
    World(Evm(map[], map[], [], [], map[0 := []], 0), map[], 0, !saveToIavl, map[], 0, None, 0)
  }

  /*** Steps ***/

  function AfterSet(w: World, key: Bytes, val: Bytes): World {
    var only := if !w.only && key == FEATURE_KEY then val == ON else w.only;
    if IsVmKey(key) then
      w.(only := only, evm := EvmSet(w.evm, key, val), tree := if only then w.tree else w.tree[key := val])
    else
      w.(only := only, tree := w.tree[key := val])
  }

  function AfterDelete(w: World, key: Bytes): World {
    if IsVmKey(key) then
      w.(evm := EvmDelete(w.evm, key), tree := if w.only then w.tree else w.tree - {key})
    else
      w.(tree := w.tree - {key})
  }

  function AfterCommit(w: World, kept: set<nat>): World {
    w.(evm := Committed(w.evm, w.version + 1, kept), pending := Some(MarkedRoot(w.evm.rootHash)),
    high := if w.high > w.version then w.high else w.version + 1)
  }

  /** The tree that is saved: in EVM-only mode it names the root, and some mirrored keys are pruned. */
  function TreeToSave(w: World, pruned: set<Bytes>): Map
    requires w.pending.Some?
  {
    if w.only then w.tree[ROOT_KEY := w.pending.value] - pruned else w.tree
  }

  function AfterSave(w: World, pruned: set<Bytes>, flush: bool): World
    requires w.pending.Some?
  {
    var tree := TreeToSave(w, pruned);
    w.(tree := tree, version := w.version + 1, pending := None,
    saved := if flush then w.saved[w.version + 1 := tree] else w.saved)
  }

  /** The saved tree is published to snapshots. */
  function Published(w: World): World { w.(last := w.version) }

  function Apply(w: World, saveToIavl: bool, step: Step): World {
    match step
    case SetKey(key, val) => AfterSet(w, key, val)
    case DeleteKey(key) => AfterDelete(w, key)
    case CommitEvm(kept) => AfterCommit(w, kept)
    case SaveTree(pruned, flush) => if w.pending.Some? then AfterSave(w, pruned, flush) else w
    case PublishTree => Published(w)
    case DropVersion(v) => w.(saved := w.saved - {v})
    case CrashAndReopen(v) =>
      if Opens(w.evm.db, TreeAt(w.saved, v), v) then Reopened(w, saveToIavl, v) else w
  }

  /** The store's own bookkeeping. */
  predicate IsBookkeeping(k: Bytes) { k == ROOT_KEY || RootArea(k) }

  /**
   * How the store is run. Clients write between saves and leave the bookkeeping keys alone; a save follows its
   * commit; a version always commits the same root, however often it is replayed; and a reopen that is refused
   * brings up nothing.
   */
  ghost predicate Orderly(w: World, root: nat -> Bytes, step: Step) {
    && IsClientStep(step)
    && match step
       case SetKey(_, _) => w.pending.None?
       case DeleteKey(_) => w.pending.None?
       case CommitEvm(_) =>
         w.pending.None? && w.version < MAX_INT64 && MarkedRoot(w.evm.rootHash) == root(w.version + 1)
       case SaveTree(_, _) => w.pending.Some?
       case PublishTree => w.pending.None?
       case DropVersion(_) => true
       case CrashAndReopen(v) => Loadable(w.saved, v) && Opens(w.evm.db, TreeAt(w.saved, v), v)
  }

  /** The bookkeeping keys are left alone, and only mirrored EVM keys are pruned. */
  ghost predicate IsClientStep(step: Step) {
    match step
    case SetKey(key, _) => !IsBookkeeping(key)
    case DeleteKey(key) => !IsBookkeeping(key)
    case SaveTree(pruned, _) => forall k | k in pruned :: IsVmKey(k)
    case _ => true
  }

  /**
   * What keeps the two databases in step: the EVM-only feature is not switched off again, and no block leaves an
   * empty root behind while both databases are written.
   */
  ghost predicate Considerate(w: World, saveToIavl: bool, step: Step) {
    match step
    case SetKey(key, val) => key == FEATURE_KEY && w.only && saveToIavl ==> val == ON
    case DeleteKey(key) => key == FEATURE_KEY ==> !(w.only && saveToIavl)
    case CommitEvm(_) => !w.only ==> Lookup(w.tree, ROOT_HASH_KEY) != Some([])
    case _ => true
  }

  /*** What every state keeps ***/

  function InForce(root: nat -> Bytes, v: nat): Bytes {
    if v == 0 then DEFAULT_ROOT else root(v)
  }

  /** The EVM store recorded every version up to `high`. */
  ghost predicate HistoryOk(w: World, root: nat -> Bytes) {
    && OnlyRoots(w.evm.db) && NoRootsCached(w.evm) && w.high <= MAX_INT64
    && (forall v: nat | v <= MAX_INT64 :: NoRootBeyond(w.evm.db, w.high, v))
    && (forall v: nat | 1 <= v <= w.high :: Recorded(w.evm.db, root, v))
  }

  ghost predicate NoRootBeyond(db: Map, high: nat, v: nat) {
    RootKey(v) in db ==> 1 <= v <= high
  }

  ghost predicate Recorded(db: Map, root: nat -> Bytes, v: nat) {
    RootAt(db, v) == Some(root(v)) && root(v) != []
  }

  /** The in-memory root state matches the version being built. */
  ghost predicate RootsOk(w: World, root: nat -> Bytes) {
    var c := if w.pending.Some? then w.version + 1 else w.version;
    && w.last <= w.version && c <= w.high
    && (w.pending.Some? ==> w.pending.value == root(w.version + 1) == MarkedRoot(w.evm.rootHash))
    && (w.evm.lastSavedRoot == [] || (c > 0 && w.evm.lastSavedRoot == root(c)))
    && (forall v | v in w.evm.rootCache :: v <= w.high && MarkedRoot(w.evm.rootCache[v]) == InForce(root, v))
  }

  /** Whatever the clients write: the history is right, and nothing on disk is ahead of it. */
  ghost predicate Base(w: World, root: nat -> Bytes) {
    && HistoryOk(w, root) && RootsOk(w, root)
    && (forall v | v in w.saved :: 1 <= v <= w.high)
  }

  /** In the tree of dual-write mode the mirrored root is that of the EVM store, empty or marked. */
  ghost predicate Mirrored(tree: Map, rootHash: Bytes) {
    && ROOT_KEY !in tree
    && (ROOT_HASH_KEY in tree ==> tree[ROOT_HASH_KEY] == rootHash || tree[ROOT_HASH_KEY] == MarkedRoot(rootHash))
    && (ROOT_HASH_KEY !in tree ==> MarkedRoot(rootHash) == DEFAULT_ROOT)
  }

  ghost predicate TreeOk(w: World, saveToIavl: bool) {
    && (!w.only ==> saveToIavl && Mirrored(w.tree, w.evm.rootHash))
    && (!w.only && w.pending.Some? ==> Lookup(w.tree, ROOT_HASH_KEY) != Some([]))
    && (w.only && saveToIavl ==> FeatureOn(w.tree))
  }

  ghost predicate SavedOk(saved: map<nat, Map>, saveToIavl: bool, root: nat -> Bytes, v: nat)
    requires v in saved
  {
    && AppRoot(saved[v], v) == root(v)
    && (saveToIavl && !FeatureOn(saved[v]) ==> ROOT_KEY !in saved[v])
  }

  /** Moreover, while clients are considerate, the trees vouch for the roots. */
  ghost predicate Inv(w: World, saveToIavl: bool, root: nat -> Bytes) {
    && Base(w, root) && TreeOk(w, saveToIavl)
    && (forall v | v in w.saved :: SavedOk(w.saved, saveToIavl, root, v))
  }

  lemma KeyFacts()
    ensures IsVmKey(ROOT_HASH_KEY) && !IsVmKey(ROOT_KEY) && !IsVmKey(FEATURE_KEY)
    ensures FEATURE_KEY != ROOT_KEY && FEATURE_KEY != ROOT_HASH_KEY && ROOT_KEY != ROOT_HASH_KEY
    ensures !RootArea(ROOT_HASH_KEY) && !RootArea(FEATURE_KEY)
  {
    assert ROOT_HASH_KEY[..3] == VM_PREFIX + [0];
    assert ROOT_HASH_KEY[3] == 118 && ROOT_RANGE[3] == 101;
    assert FEATURE_KEY[0] == 102 && VM_PREFIX[0] == 118 && (VM_PREFIX + [0])[0] == 118 && ROOT_RANGE[0] == 118;
    assert ROOT_KEY[2] == 114 && (VM_PREFIX + [0])[2] == 0;
  }

  lemma FreshBase(saveToIavl: bool, root: nat -> Bytes)
    ensures Base(Fresh(saveToIavl), root)
  {
  }

  lemma HistoryFrame(w: World, t: World, root: nat -> Bytes)
    requires HistoryOk(w, root) && t.evm.db == w.evm.db && t.high == w.high && NoRootsCached(t.evm)
    ensures HistoryOk(t, root)
  {
  }

  /** Writes touch the cache, the root and the tree only. */
  lemma WritesKeepBase(w: World, e: EvmStores.Evm, tree: Map, only: bool, root: nat -> Bytes)
    requires Base(w, root) && w.pending.None? && NoRootsCached(e)
    requires e == w.evm.(cache := e.cache, rootHash := e.rootHash)
    ensures Base(w.(evm := e, tree := tree, only := only), root)
  {
    HistoryFrame(w, w.(evm := e, tree := tree, only := only), root);
  }

  lemma SetKeepsBase(w: World, root: nat -> Bytes, key: Bytes, val: Bytes)
    requires Base(w, root) && w.pending.None? && !IsBookkeeping(key)
    ensures Base(AfterSet(w, key, val), root)
  {
    var t := AfterSet(w, key, val);
    assert NoRootsCached(t.evm);
    WritesKeepBase(w, t.evm, t.tree, t.only, root);
  }

  lemma DeleteKeepsBase(w: World, root: nat -> Bytes, key: Bytes)
    requires Base(w, root) && w.pending.None? && !IsBookkeeping(key)
    ensures Base(AfterDelete(w, key), root)
  {
    var t := AfterDelete(w, key);
    assert NoRootsCached(t.evm);
    WritesKeepBase(w, t.evm, t.tree, t.only, root);
  }

  lemma CommitKeepsBase(w: World, root: nat -> Bytes, kept: set<nat>)
    requires Base(w, root) && Orderly(w, root, CommitEvm(kept))
    ensures Base(AfterCommit(w, kept), root)
  {
    CommitKeepsHistoryOk(w, root, kept);
    CommitKeepsRoots(w, root, kept);
  }

  lemma CommitKeepsRoots(w: World, root: nat -> Bytes, kept: set<nat>)
    requires RootsOk(w, root) && w.pending.None? && MarkedRoot(w.evm.rootHash) == root(w.version + 1)
    ensures RootsOk(AfterCommit(w, kept), root)
  {
    var t := AfterCommit(w, kept);
    forall v | v in t.evm.rootCache
      ensures v <= t.high && MarkedRoot(t.evm.rootCache[v]) == InForce(root, v)
    {
      assert v != w.version + 1 ==> v in w.evm.rootCache && t.evm.rootCache[v] == w.evm.rootCache[v];
    }
  }

  lemma CommitKeepsHistoryOk(w: World, root: nat -> Bytes, kept: set<nat>)
    requires HistoryOk(w, root) && RootsOk(w, root) && w.pending.None? && w.version < MAX_INT64
    requires MarkedRoot(w.evm.rootHash) == root(w.version + 1)
    ensures HistoryOk(AfterCommit(w, kept), root)
  {
    var t := AfterCommit(w, kept);
    CommitKeepsOnlyRoots(w.evm, w.version + 1, kept);
    forall v: nat | v <= MAX_INT64
      ensures NoRootBeyond(t.evm.db, t.high, v)
    {
      assert NoRootBeyond(w.evm.db, w.high, v);
      CommitTouchesOneRoot(w.evm, w.version + 1, kept, v);
    }
    forall v: nat | 1 <= v <= t.high
      ensures Recorded(t.evm.db, root, v)
    {
      CommitKeepsHistory(w, root, kept, v);
    }
  }

  /** Committing a version, again or for the first time, leaves the right root in force everywhere. */
  lemma {:induction false} CommitKeepsHistory(w: World, root: nat -> Bytes, kept: set<nat>, v: nat)
    requires HistoryOk(w, root) && RootsOk(w, root) && w.pending.None? && w.version < MAX_INT64
    requires MarkedRoot(w.evm.rootHash) == root(w.version + 1)
    requires 1 <= v <= AfterCommit(w, kept).high
    ensures Recorded(AfterCommit(w, kept).evm.db, root, v)
    decreases v
  {
    var c := w.version + 1;
    if v < c {
      assert Recorded(w.evm.db, root, v);
      UntouchedHistory(w.evm, c, kept, v);
    } else if v == c {
      assert NoRootBeyond(w.evm.db, w.high, c);
      assert c <= w.high ==> Recorded(w.evm.db, root, c);
      assert w.version > 0 ==> Recorded(w.evm.db, root, w.version);
      RecordedAtCommit(w.evm, c, w.high, kept, root);
    } else {
      CommitKeepsHistory(w, root, kept, v - 1);
      assert Recorded(w.evm.db, root, v) && Recorded(w.evm.db, root, v - 1);
      RecordedAfterCommit(w.evm, c, kept, root, v);
    }
  }

  lemma RecordedAtCommit(e: EvmStores.Evm, c: nat, high: nat, kept: set<nat>, root: nat -> Bytes)
    requires NoRootsCached(e) && 1 <= c <= MAX_INT64 && MarkedRoot(e.rootHash) == root(c)
    requires NoRootBeyond(e.db, high, c) && (c <= high ==> Recorded(e.db, root, c))
    requires c > 1 ==> Recorded(e.db, root, c - 1)
    requires e.lastSavedRoot == [] || (c > 1 && e.lastSavedRoot == root(c - 1))
    ensures Recorded(Committed(e, c, kept).db, root, c)
  {
    CommitTouchesOneRoot(e, c, kept, c);
    if MarkedRoot(e.rootHash) == e.lastSavedRoot {
      UntouchedHistory(e, c, kept, c);
    }
  }

  lemma RecordedAfterCommit(e: EvmStores.Evm, c: nat, kept: set<nat>, root: nat -> Bytes, v: nat)
    requires NoRootsCached(e) && 1 <= c < v <= MAX_INT64
    requires Recorded(e.db, root, v) && Recorded(e.db, root, v - 1) && Recorded(Committed(e, c, kept).db, root, v - 1)
    ensures Recorded(Committed(e, c, kept).db, root, v)
  {
    CommitTouchesOneRoot(e, c, kept, v);
  }

  lemma UntouchedHistory(e: EvmStores.Evm, version: nat, kept: set<nat>, v: nat)
    requires NoRootsCached(e) && version <= MAX_INT64 && v <= version
    requires v < version || MarkedRoot(e.rootHash) == e.lastSavedRoot
    ensures RootAt(Committed(e, version, kept).db, v) == RootAt(e.db, v)
  {
    var db := Committed(e, version, kept).db;
    forall x: nat | x <= v
      ensures (RootKey(x) in e.db <==> RootKey(x) in db) && (RootKey(x) in db ==> db[RootKey(x)] == e.db[RootKey(x)])
    {
      CommitTouchesOneRoot(e, version, kept, x);
    }
    RootAtCongruent(e.db, db, v);
  }

  lemma SaveKeepsBase(w: World, root: nat -> Bytes, pruned: set<Bytes>, flush: bool)
    requires Base(w, root) && w.pending.Some?
    ensures Base(AfterSave(w, pruned, flush), root)
  {
    HistoryFrame(w, AfterSave(w, pruned, flush), root);
  }

  /** The EVM store loads any version on disk, with its root in force. */
  lemma LoadsRoot(w: World, root: nat -> Bytes, v: nat)
    requires Base(w, root) && (v in w.saved || v == 0)
    ensures EvmRoot(w.evm.db, v) == (if v == 0 then [] else root(v)) && (v > 0 ==> root(v) != [])
    ensures Loaded(w.evm.db, map[], v).Some?
    ensures MarkedRoot(Loaded(w.evm.db, map[], v).value.rootHash) == InForce(root, v)
  {
    if v == 0 {
      assert NoRootBeyond(w.evm.db, w.high, 0);
    } else {
      assert Recorded(w.evm.db, root, v);
    }
  }

  lemma ReopenKeepsBase(w: World, saveToIavl: bool, root: nat -> Bytes, v: nat)
    requires Base(w, root) && Loadable(w.saved, v) && Opens(w.evm.db, TreeAt(w.saved, v), v)
    ensures Base(Reopened(w, saveToIavl, v), root)
  {
    LoadsRoot(w, root, v);
    HistoryFrame(w, Reopened(w, saveToIavl, v), root);
  }

  lemma StepKeepsBase(w: World, saveToIavl: bool, root: nat -> Bytes, step: Step)
    requires Base(w, root) && Orderly(w, root, step)
    ensures Base(Apply(w, saveToIavl, step), root)
  {
    match step
    case SetKey(key, val) => SetKeepsBase(w, root, key, val);
    case DeleteKey(key) => DeleteKeepsBase(w, root, key);
    case CommitEvm(kept) => CommitKeepsBase(w, root, kept);
    case SaveTree(pruned, flush) => SaveKeepsBase(w, root, pruned, flush);
    case PublishTree => HistoryFrame(w, Published(w), root);
    case DropVersion(v) => HistoryFrame(w, w.(saved := w.saved - {v}), root);
    case CrashAndReopen(v) => ReopenKeepsBase(w, saveToIavl, root, v);
  }

  /*** Runs ***/

  ghost predicate IsRun(worlds: seq<World>, saveToIavl: bool, root: nat -> Bytes, steps: seq<Step>) {
    && |worlds| == |steps| + 1
    && worlds[0] == Fresh(saveToIavl)
    && (forall i | 0 <= i < |steps| :: Orderly(worlds[i], root, steps[i]))
    && (forall i | 0 <= i < |steps| :: worlds[i + 1] == Apply(worlds[i], saveToIavl, steps[i]))
  }

  lemma {:induction false} RunKeepsBase(
    worlds: seq<World>, saveToIavl: bool, root: nat -> Bytes, steps: seq<Step>, i: nat)
    requires IsRun(worlds, saveToIavl, root, steps) && i <= |steps|
    ensures Base(worlds[i], root)
  {
    if i == 0 {
      FreshBase(saveToIavl, root);
    } else {
      RunKeepsBase(worlds, saveToIavl, root, steps, i - 1);
      StepKeepsBase(worlds[i - 1], saveToIavl, root, steps[i - 1]);
    }
  }

  /*** Which restarts succeed ***/

  /** The tree about to be saved names the root just committed. */
  ghost predicate Vouches(w: World)
    requires w.pending.Some?
  {
    w.only || AppRoot(w.tree, w.version + 1) == w.pending.value
  }

  lemma VouchedRoot(w: World, pruned: set<Bytes>)
    requires w.pending.Some? && forall k | k in pruned :: IsVmKey(k)
    ensures AppRoot(TreeToSave(w, pruned), w.version + 1) == w.pending.value <==> Vouches(w)
  {
    KeyFacts();
  }

  /** Step k wrote the tree of version v that is on disk in state i. */
  ghost predicate SavedAt(worlds: seq<World>, steps: seq<Step>, k: nat, i: nat, v: nat) {
    && k < i <= |steps| < |worlds| && steps[k].SaveTree? && steps[k].flush
    && worlds[k].pending.Some? && worlds[k].version + 1 == v
    && v in worlds[i].saved && worlds[i].saved[v] == TreeToSave(worlds[k], steps[k].pruned)
  }

  /** What is on disk changes exactly by saves that are flushed and by dropping versions. */
  lemma SavedNowOrBefore(w: World, saveToIavl: bool, root: nat -> Bytes, step: Step, v: nat)
    requires Orderly(w, root, step)
    ensures var saved := Apply(w, saveToIavl, step).saved;
      if step.SaveTree? && step.flush && w.version + 1 == v
      then w.pending.Some? && v in saved && saved[v] == TreeToSave(w, step.pruned)
      else (v in saved <==> v in w.saved && step != DropVersion(v)) && (v in saved ==> saved[v] == w.saved[v])
  {
  }

  lemma {:induction false} SavedSometime(
    worlds: seq<World>, saveToIavl: bool, root: nat -> Bytes, steps: seq<Step>, i: nat, v: nat) returns (k: nat)
    requires IsRun(worlds, saveToIavl, root, steps) && i <= |steps| && v in worlds[i].saved
    ensures SavedAt(worlds, steps, k, i, v)
  {
    var w, step := worlds[i - 1], steps[i - 1];
    SavedNowOrBefore(w, saveToIavl, root, step, v);
    if step.SaveTree? && step.flush && w.version + 1 == v {
      k := i - 1;
    } else {
      k := SavedSometime(worlds, saveToIavl, root, steps, i - 1, v);
    }
  }

  /**
   * Crash and restart: in every run, whenever the process dies, a version on disk can be loaded exactly when its tree
   * names the root committed for it, and that is when it did so at the time it was saved.
   */
  lemma RestartOpens(
    worlds: seq<World>, saveToIavl: bool, root: nat -> Bytes, steps: seq<Step>, i: nat, v: nat, k: nat)
    requires IsRun(worlds, saveToIavl, root, steps) && SavedAt(worlds, steps, k, i, v)
    ensures Opens(worlds[i].evm.db, worlds[i].saved[v], v) <==> AppRoot(worlds[i].saved[v], v) == root(v)
    ensures Opens(worlds[i].evm.db, worlds[i].saved[v], v) <==> Vouches(worlds[k])
  {
    RunKeepsBase(worlds, saveToIavl, root, steps, i);
    RunKeepsBase(worlds, saveToIavl, root, steps, k);
    LoadsRoot(worlds[i], root, v);
    assert Orderly(worlds[k], root, steps[k]);
    VouchedRoot(worlds[k], steps[k].pruned);
  }

  /** Every save to disk up to state i vouches for its root. */
  ghost predicate AllVouch(worlds: seq<World>, steps: seq<Step>, i: nat)
    requires i <= |steps| <= |worlds|
  {
    forall k | 0 <= k < i && steps[k].SaveTree? && steps[k].flush && worlds[k].pending.Some? :: Vouches(worlds[k])
  }

  /**
   * So if all saves vouch, whichever version on disk is loaded passes the root check, and the store is then at that
   * version with its root.
   */
  lemma EveryRestartOpens(
    worlds: seq<World>, saveToIavl: bool, root: nat -> Bytes, steps: seq<Step>, i: nat, v: nat)
    requires IsRun(worlds, saveToIavl, root, steps) && i <= |steps| && Loadable(worlds[i].saved, v)
    requires AllVouch(worlds, steps, i)
    ensures Opens(worlds[i].evm.db, TreeAt(worlds[i].saved, v), v)
    ensures var w := Reopened(worlds[i], saveToIavl, v);
      w.version == v && MarkedRoot(w.evm.rootHash) == InForce(root, v)
  {
    RunKeepsBase(worlds, saveToIavl, root, steps, i);
    LoadsRoot(worlds[i], root, v);
    if v in worlds[i].saved {
      var k := SavedSometime(worlds, saveToIavl, root, steps, i, v);
      RestartOpens(worlds, saveToIavl, root, steps, i, v, k);
    }
  }

  /** What the clients wrote last to the application keys and the write mode are restored as they were saved. */
  lemma RestartRestores(
    worlds: seq<World>, saveToIavl: bool, root: nat -> Bytes, steps: seq<Step>, i: nat, v: nat, k: nat)
    requires IsRun(worlds, saveToIavl, root, steps) && SavedAt(worlds, steps, k, i, v)
    requires Opens(worlds[i].evm.db, TreeAt(worlds[i].saved, v), v)
    ensures var t := Reopened(worlds[i], saveToIavl, v);
      && t.version == t.last == v && t.pending.None? && t.saved == worlds[i].saved
      && (forall key | IsClientKey(key) && !IsVmKey(key) :: Read(t, key) == Read(worlds[k], key))
      && (forall key | IsClientKey(key) && IsVmKey(key) :: Read(t, key) == Lookup(worlds[i].evm.db, key))
      && (t.only <==> !saveToIavl || Lookup(worlds[k].tree, FEATURE_KEY) == Some(ON))
  {
    KeyFacts();
    assert Orderly(worlds[k], root, steps[k]);
  }

  /*** Considerate clients ***/

  lemma SetKeepsTree(w: World, saveToIavl: bool, key: Bytes, val: Bytes)
    requires TreeOk(w, saveToIavl) && w.pending.None? && !IsBookkeeping(key)
    requires Considerate(w, saveToIavl, SetKey(key, val))
    ensures TreeOk(AfterSet(w, key, val), saveToIavl)
  {
    KeyFacts();
  }

  lemma DeleteKeepsTree(w: World, saveToIavl: bool, key: Bytes)
    requires TreeOk(w, saveToIavl) && w.pending.None? && !IsBookkeeping(key)
    requires Considerate(w, saveToIavl, DeleteKey(key))
    ensures TreeOk(AfterDelete(w, key), saveToIavl)
  {
    KeyFacts();
  }

  /** A considerate client's block is vouched for. */
  lemma TreeVouches(w: World, saveToIavl: bool, root: nat -> Bytes)
    requires Base(w, root) && TreeOk(w, saveToIavl) && w.pending.Some?
    ensures Vouches(w) && w.pending.value == root(w.version + 1)
  {
  }

  lemma SaveKeepsTree(w: World, saveToIavl: bool, root: nat -> Bytes, pruned: set<Bytes>, flush: bool)
    requires Inv(w, saveToIavl, root) && Orderly(w, root, SaveTree(pruned, flush))
    ensures Inv(AfterSave(w, pruned, flush), saveToIavl, root)
  {
    KeyFacts();
    var t := AfterSave(w, pruned, flush);
    SaveKeepsBase(w, root, pruned, flush);
    TreeVouches(w, saveToIavl, root);
    VouchedRoot(w, pruned);
    forall v | v in t.saved
      ensures SavedOk(t.saved, saveToIavl, root, v)
    {
      assert v in w.saved ==> SavedOk(w.saved, saveToIavl, root, v);
    }
  }

  lemma ReopenKeepsTree(w: World, saveToIavl: bool, root: nat -> Bytes, v: nat)
    requires Inv(w, saveToIavl, root) && Orderly(w, root, CrashAndReopen(v))
    ensures Inv(Reopened(w, saveToIavl, v), saveToIavl, root)
  {
    ReopenKeepsBase(w, saveToIavl, root, v);
    LoadsRoot(w, root, v);
    assert v in w.saved ==> SavedOk(w.saved, saveToIavl, root, v);
  }

  lemma StepKeepsInv(w: World, saveToIavl: bool, root: nat -> Bytes, step: Step)
    requires Inv(w, saveToIavl, root) && Orderly(w, root, step) && Considerate(w, saveToIavl, step)
    ensures Inv(Apply(w, saveToIavl, step), saveToIavl, root)
  {
    StepKeepsBase(w, saveToIavl, root, step);
    match step
    case SetKey(key, val) => SetKeepsTree(w, saveToIavl, key, val);
    case DeleteKey(key) => DeleteKeepsTree(w, saveToIavl, key);
    case CommitEvm(kept) =>
    case SaveTree(pruned, flush) => SaveKeepsTree(w, saveToIavl, root, pruned, flush);
    case PublishTree =>
    case DropVersion(v) =>
      assert forall x | x in w.saved - {v} :: SavedOk(w.saved, saveToIavl, root, x);
    case CrashAndReopen(v) => ReopenKeepsTree(w, saveToIavl, root, v);
  }

  lemma {:induction false} RunKeepsInv(
    worlds: seq<World>, saveToIavl: bool, root: nat -> Bytes, steps: seq<Step>, i: nat)
    requires IsRun(worlds, saveToIavl, root, steps) && i <= |steps|
    requires forall k | 0 <= k < i :: Considerate(worlds[k], saveToIavl, steps[k])
    ensures Inv(worlds[i], saveToIavl, root)
  {
    if i == 0 {
      FreshBase(saveToIavl, root);
    } else {
      RunKeepsInv(worlds, saveToIavl, root, steps, i - 1);
      StepKeepsInv(worlds[i - 1], saveToIavl, root, steps[i - 1]);
    }
  }

  /** While clients are considerate, every save vouches, so every restart succeeds. */
  lemma ConsiderateRunsVouch(
    worlds: seq<World>, saveToIavl: bool, root: nat -> Bytes, steps: seq<Step>, i: nat)
    requires IsRun(worlds, saveToIavl, root, steps) && i <= |steps|
    requires forall k | 0 <= k < i :: Considerate(worlds[k], saveToIavl, steps[k])
    ensures AllVouch(worlds, steps, i)
  {
    forall k | 0 <= k < i && steps[k].SaveTree? && steps[k].flush && worlds[k].pending.Some?
      ensures Vouches(worlds[k])
    {
      RunKeepsInv(worlds, saveToIavl, root, steps, k);
      TreeVouches(worlds[k], saveToIavl, root);
    }
  }

  /*** One save ***/

  /**
   * Recording works exactly when the root changed, or the record already in force for the version is the
   * right one. A record left by a commit that a crash undid is not overwritten by an unchanged root.
   */
  lemma CommitRecordsRoot(e: EvmStores.Evm, c: nat, kept: set<nat>)
    requires NoRootsCached(e) && 1 <= c <= MAX_INT64
    ensures RootAt(Committed(e, c, kept).db, c) == Some(MarkedRoot(e.rootHash))
       <==> MarkedRoot(e.rootHash) != e.lastSavedRoot || RootAt(e.db, c) == Some(MarkedRoot(e.rootHash))
  {
    CommitTouchesOneRoot(e, c, kept, c);
    if MarkedRoot(e.rootHash) == e.lastSavedRoot {
      UntouchedHistory(e, c, kept, c);
    }
  }

  /** A block that is committed and saved to disk reopens exactly when the tree names the root it leaves behind. */
  lemma SaveReopens(w: World, root: nat -> Bytes, kept: set<nat>, pruned: set<Bytes>)
    requires Base(w, root) && Orderly(w, root, CommitEvm(kept)) && forall k | k in pruned :: IsVmKey(k)
    ensures var t := AfterSave(AfterCommit(w, kept), pruned, true);
      Opens(t.evm.db, TreeAt(t.saved, t.version), t.version)
      <==> || w.only
           || (if ROOT_KEY in w.tree then w.tree[ROOT_KEY] == MarkedRoot(w.evm.rootHash)
               else if ROOT_HASH_KEY in w.tree then w.tree[ROOT_HASH_KEY] == MarkedRoot(w.evm.rootHash)
               else w.evm.rootHash == [] || w.evm.rootHash == DEFAULT_ROOT)
  {
    var c := AfterCommit(w, kept);
    var t := AfterSave(c, pruned, true);
    CommitKeepsBase(w, root, kept);
    SaveKeepsBase(c, root, pruned, true);
    LoadsRoot(t, root, t.version);
    VouchedRoot(c, pruned);
  }

  /**
   * While both databases are written, a root set by a block reopens exactly when the tree vouches for the same root:
   * an empty root does not (only the EVM store replaces it by its marker), and neither does any root that
   * differs from one left behind in the tree by an earlier EVM-only phase.
   */
  lemma DualWriteReopens(w: World, root: nat -> Bytes, val: Bytes, kept: set<nat>)
    requires Base(w, root) && w.pending.None? && !w.only
    requires w.version < MAX_INT64 && root(w.version + 1) == MarkedRoot(val)
    ensures var t := AfterSave(AfterCommit(AfterSet(w, ROOT_HASH_KEY, val), kept), {}, true);
      Opens(t.evm.db, TreeAt(t.saved, t.version), t.version)
      <==> if ROOT_KEY in w.tree then w.tree[ROOT_KEY] == MarkedRoot(val) else val != []
  {
    KeyFacts();
    SetKeepsBase(w, root, ROOT_HASH_KEY, val);
    SaveReopens(AfterSet(w, ROOT_HASH_KEY, val), root, kept, {});
  }

  /*** Snapshots ***/

  lemma {:induction false} HighGrows(
    worlds: seq<World>, saveToIavl: bool, root: nat -> Bytes, steps: seq<Step>, i: nat, j: nat)
    requires IsRun(worlds, saveToIavl, root, steps) && i <= j <= |steps|
    ensures worlds[i].high <= worlds[j].high
  {
    if i < j { HighGrows(worlds, saveToIavl, root, steps, i, j - 1); }
  }

  /**
   * Snapshot pairing: a snapshot picks up the published tree at one moment, looks for the root of its version in
   * the LRU at any later one, and in the database at any still later one. Whatever ran in between, and whatever
   * the LRU has forgotten, the root is the one committed for that version (the empty root and its marker being
   * the same).
   */
  lemma SnapshotsPair(
    worlds: seq<World>, saveToIavl: bool, root: nat -> Bytes, steps: seq<Step>, i: nat, j: nat, k: nat)
    requires IsRun(worlds, saveToIavl, root, steps) && i <= j <= k <= |steps|
    ensures var v := worlds[i].last;
      MarkedRoot(RootLookedUp(worlds[j].evm.rootCache, worlds[k].evm.db, v)) == InForce(root, v)
  {
    RunKeepsBase(worlds, saveToIavl, root, steps, i);
    RunKeepsBase(worlds, saveToIavl, root, steps, j);
    RunKeepsBase(worlds, saveToIavl, root, steps, k);
    HighGrows(worlds, saveToIavl, root, steps, i, k);
    var v, w := worlds[i].last, worlds[k];
    assert if v == 0 then NoRootBeyond(w.evm.db, w.high, 0) else Recorded(w.evm.db, root, v);
  }

  /** The version of the latest save or reopen. */
  function LatestVersion(steps: seq<Step>, i: nat): nat
    requires i <= |steps|
  {
    if i == 0 then 0
    else match steps[i - 1]
      case SaveTree(_, _) => LatestVersion(steps, i - 1) + 1
      case CrashAndReopen(v) => v
      case _ => LatestVersion(steps, i - 1)
  }

  /** The version that was the latest at the last publish or reopen. */
  function LatestPublished(steps: seq<Step>, i: nat): nat
    requires i <= |steps|
  {
    if i == 0 then 0
    else match steps[i - 1]
      case PublishTree => LatestVersion(steps, i - 1)
      case CrashAndReopen(v) => v
      case _ => LatestPublished(steps, i - 1)
  }

  /** In every run snapshots are of the version last published, and that is the latest saved by then. */
  lemma {:induction false} SnapshotsFollow(
    worlds: seq<World>, saveToIavl: bool, root: nat -> Bytes, steps: seq<Step>, i: nat)
    requires IsRun(worlds, saveToIavl, root, steps) && i <= |steps|
    ensures worlds[i].version == LatestVersion(steps, i) && worlds[i].last == LatestPublished(steps, i)
  {
    if i > 0 {
      SnapshotsFollow(worlds, saveToIavl, root, steps, i - 1);
      assert Orderly(worlds[i - 1], root, steps[i - 1]);
    }
  }

  /*** The write mode ***/

  /** Between reopens the store goes over to EVM-only mode exactly when the feature is switched on. */
  lemma ModeSwitches(w: World, saveToIavl: bool, step: Step)
    requires !step.CrashAndReopen?
    ensures Apply(w, saveToIavl, step).only <==> w.only || step == SetKey(FEATURE_KEY, ON)
  {
  }

  /** In EVM-only mode the EVM keys in the tree only ever go away, by pruning. */
  lemma EvmOnlyFreezesTree(w: World, saveToIavl: bool, step: Step, k: Bytes)
    requires w.only && IsVmKey(k) && !step.CrashAndReopen?
    ensures Lookup(Apply(w, saveToIavl, step).tree, k) ==
            if step.SaveTree? && w.pending.Some? && k in step.pruned then None else Lookup(w.tree, k)
  {
    KeyFacts();
  }

  /** The tree holds the EVM keys as the EVM store shows them. */
  ghost predicate MirrorsEvm(w: World) {
    forall k | IsVmKey(k) && IsClientKey(k) :: Lookup(w.tree, k) == Read(w, k)
  }

  lemma StepKeepsMirror(w: World, saveToIavl: bool, step: Step)
    requires MirrorsEvm(w) && IsClientStep(step) && !step.CrashAndReopen? && !Apply(w, saveToIavl, step).only
    ensures MirrorsEvm(Apply(w, saveToIavl, step))
  {
    var t := Apply(w, saveToIavl, step);
    ModeSwitches(w, saveToIavl, step);
    forall k | IsVmKey(k) && IsClientKey(k)
      ensures Lookup(t.tree, k) == Read(t, k)
    {
      assert Lookup(w.tree, k) == Read(w, k);
      match step {
        case SetKey(key, val) => SetReads(w, key, val, k);
        case DeleteKey(key) => DeleteReads(w, key, k);
        case CommitEvm(kept) => SavingReads(w, kept, {}, false, k);
        case SaveTree(pruned, flush) =>
          if w.pending.Some? { SavingReads(w, {}, pruned, flush, k); }
        case PublishTree =>
        case DropVersion(_) =>
      }
    }
  }

  /** While both databases are written, a tree that mirrors the EVM store goes on doing so. */
  lemma {:induction false} MirrorStays(worlds: seq<World>, saveToIavl: bool, steps: seq<Step>, j: nat)
    requires IsSession(worlds, saveToIavl, steps) && j <= |steps| && MirrorsEvm(worlds[0]) && !worlds[j].only
    ensures MirrorsEvm(worlds[j])
  {
    if j > 0 {
      ModeSwitches(worlds[j - 1], saveToIavl, steps[j - 1]);
      MirrorStays(worlds, saveToIavl, steps, j - 1);
      StepKeepsMirror(worlds[j - 1], saveToIavl, steps[j - 1]);
    }
  }

  /*** One ordinary map ***/

  /** Keys of the clients; the root hash is one too, but always counts as present. */
  predicate IsClientKey(k: Bytes) { !IsBookkeeping(k) && k != ROOT_HASH_KEY }

  /** What a client reads: EVM keys come from the EVM store, all others from the tree. */
  function Read(w: World, k: Bytes): Option<Bytes> {
    if IsVmKey(k) then Lookup(Overlay(w.evm.db, w.evm.cache), k) else Lookup(w.tree, k)
  }

  /** The store reads like the map `m`. */
  ghost predicate ReadsLike(w: World, m: Map) {
    && (forall k | IsClientKey(k) :: Read(w, k) == Lookup(m, k))
    && w.evm.rootHash == (if ROOT_HASH_KEY in m then m[ROOT_HASH_KEY] else [])
  }

  /** The same writes on an ordinary map; saving is none of its business. */
  function OnMap(m: Map, step: Step): Map {
    match step
    case SetKey(key, val) => m[key := val]
    case DeleteKey(key) => m - {key}
    case _ => m
  }

  lemma SetReads(w: World, key: Bytes, val: Bytes, k: Bytes)
    requires !IsBookkeeping(key) && IsClientKey(k)
    ensures Read(AfterSet(w, key, val), k) == if k == key then Some(val) else Read(w, k)
  {
    KeyFacts();
  }

  lemma DeleteReads(w: World, key: Bytes, k: Bytes)
    requires !IsBookkeeping(key) && IsClientKey(k)
    ensures Read(AfterDelete(w, key), k) == if k == key then None else Read(w, k)
  {
    KeyFacts();
  }

  /** Committing the EVM store and saving the tree, with the pruning of mirrored keys, shows in no read. */
  lemma SavingReads(w: World, kept: set<nat>, pruned: set<Bytes>, flush: bool, k: Bytes)
    requires IsClientKey(k) && forall x | x in pruned :: IsVmKey(x)
    ensures Read(AfterCommit(w, kept), k) == Read(w, k)
    ensures w.pending.Some? ==> Read(AfterSave(w, pruned, flush), k) == Read(w, k)
  {
    KeyFacts();
    RootKeyInRange(w.version + 1);
  }

  /** Every step but a reopen acts on the reads like a write on one map, or not at all. */
  lemma StepRefinesMap(w: World, saveToIavl: bool, step: Step, m: Map)
    requires IsClientStep(step) && !step.CrashAndReopen? && ReadsLike(w, m)
    ensures ReadsLike(Apply(w, saveToIavl, step), OnMap(m, step))
  {
    KeyFacts();
    var t := Apply(w, saveToIavl, step);
    forall k | IsClientKey(k)
      ensures Read(t, k) == Lookup(OnMap(m, step), k)
    {
      match step {
        case SetKey(key, val) => SetReads(w, key, val, k);
        case DeleteKey(key) => DeleteReads(w, key, k);
        case CommitEvm(kept) => SavingReads(w, kept, {}, false, k);
        case SaveTree(pruned, flush) =>
          if w.pending.Some? { SavingReads(w, {}, pruned, flush, k); }
        case PublishTree =>
        case DropVersion(_) =>
      }
    }
  }

  lemma LastOfPrefix(steps: seq<Step>, j: nat)
    requires 0 < j <= |steps|
    ensures steps[..j][..j - 1] == steps[..j - 1] && steps[..j][j - 1] == steps[j - 1]
  {
  }

  function AllOnMap(m: Map, steps: seq<Step>): Map {
    if steps == [] then m else OnMap(AllOnMap(m, steps[..|steps| - 1]), steps[|steps| - 1])
  }

  /** Any steps whatever, from any state on, up to the next reopen. */
  ghost predicate IsSession(worlds: seq<World>, saveToIavl: bool, steps: seq<Step>) {
    && |worlds| == |steps| + 1
    && (forall i | 0 <= i < |steps| :: IsClientStep(steps[i]) && !steps[i].CrashAndReopen?)
    && (forall i | 0 <= i < |steps| :: worlds[i + 1] == Apply(worlds[i], saveToIavl, steps[i]))
  }

  /**
   * Between two reopens the store reads like one ordinary map under the same writes: neither saving, nor
   * pruning, nor the switch of write mode shows.
   */
  lemma {:induction false} RunRefinesMap(worlds: seq<World>, saveToIavl: bool, steps: seq<Step>, j: nat, m: Map)
    requires IsSession(worlds, saveToIavl, steps) && j <= |steps| && ReadsLike(worlds[0], m)
    ensures ReadsLike(worlds[j], AllOnMap(m, steps[..j]))
  {
    if j > 0 {
      RunRefinesMap(worlds, saveToIavl, steps, j - 1, m);
      LastOfPrefix(steps, j);
      StepRefinesMap(worlds[j - 1], saveToIavl, steps[j - 1], AllOnMap(m, steps[..j - 1]));
    }
  }

  /** There always is such a map to start from. */
  lemma ReadableAsMap(w: World) returns (m: Map)
    ensures ReadsLike(w, m)
  {
    var evm := Overlay(w.evm.db, w.evm.cache);
    m := (map k | k in w.tree && !IsVmKey(k) :: w.tree[k]) + (map k | k in evm && IsVmKey(k) :: evm[k]);
    m := m[ROOT_HASH_KEY := w.evm.rootHash];
  }
}
