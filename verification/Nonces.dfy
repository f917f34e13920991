/** Account nonces: the sequence in the store, the cache of expected nonces, CheckTx and DeliverTx. */
module Nonces {
  import opened Prelude
  import opened Keys
  import opened KeyValue
  import opened CacheTxs

  /** "nonce". */
  const NONCE_PREFIX: Bytes := [110, 111, 110, 99, 101]

  function NonceKey(account: Bytes): Bytes { PrefixKey(NONCE_PREFIX, account) }

  lemma NonceKeysDiffer(a: Bytes, b: Bytes)
    ensures NonceKey(a) == NonceKey(b) <==> a == b
  {
    assert NonceKey(a)[6..] == a && NonceKey(b)[6..] == b;
  }

  /** A 64-bit counter goes back to zero at its end. */
  function Next64(n: nat): nat { if n == MAX_UINT64 then 0 else n + 1 }

  /** The number stored under a key, 0 when there is none. */
  function Stored(m: Map, key: Bytes): nat {
    if key in m && m[key] != [] then FromBigEndian(m[key]) else 0
  }

  /** The sequence of an account advances in a map. */
  function Advanced(m: Map, account: Bytes): Map {
    m[NonceKey(account) := BigEndian(Next64(Stored(m, NonceKey(account))), 8)]
  }

  /** Sequences hold eight bytes. */
  ghost predicate WellStored(m: Map) {
    forall a: Bytes :: NonceKey(a) in m ==> |m[NonceKey(a)]| == 8 && Stored(m, NonceKey(a)) <= MAX_UINT64
  }

  lemma AdvancedValue(m: Map, account: Bytes)
    requires Stored(m, NonceKey(account)) <= MAX_UINT64
    ensures Stored(Advanced(m, account), NonceKey(account)) == Next64(Stored(m, NonceKey(account)))
  {
    Pow256Values();
    BigEndianRoundTrip(Next64(Stored(m, NonceKey(account))), 8);
  }

  /**
   * A transaction: who signed it (nobody, if the signature was bad), the nonce it carries, and what its
   * handler will do.
   */
  datatype Tx = Tx(origin: Bytes, wellFormed: bool, sequence: nat, writes: seq<TempTx>, succeeds: bool)

  /** Handlers do not write the nonces of accounts. */
  ghost predicate LeavesNonces(tx: Tx) {
    forall t, a | t in tx.writes :: t.key != NonceKey(a)
  }

  datatype State = State(store: Map, cache: map<Bytes, nat>, lastHeight: int)

  /** What processing a transaction leaves: the handler's fields, the raw store, the buffered writes. */
  datatype Processed = Processed(cache: map<Bytes, nat>, lastHeight: int, raw: Map, writes: seq<TempTx>, ok: bool)

  function CachedNonce(cache: map<Bytes, nat>, account: Bytes): nat {
    if account in cache then cache[account] else 0
  }

  function Process(s: State, tx: Tx, isCheck: bool, inc: bool, height: int): Processed {
    if tx.origin == [] then Processed(s.cache, s.lastHeight, s.store, [], false) else
    var cache := if s.lastHeight != height then map[] else s.cache;
    var key := NonceKey(tx.origin);
    var seq0 := Next64(Stored(s.store, key));
    var direct := inc && !isCheck;
    var raw := if direct then Advanced(s.store, tx.origin) else s.store;
    var buffered := if direct then [] else [TxSet(key, BigEndian(seq0, 8))];
    if !tx.wellFormed then Processed(cache, height, raw, buffered, false) else
    var known := CachedNonce(cache, tx.origin);
    var useCache := known != 0 && isCheck;
    var expected := if useCache then known else seq0;
    var cache1 :=
      if useCache then cache else cache[tx.origin := if direct then Next64(seq0) else seq0];
    if tx.sequence != expected then Processed(cache1, height, raw, buffered, false) else
    if !tx.succeeds then Processed(cache1, height, raw, buffered + tx.writes, false) else
    var cache2 := if direct then cache1 else cache1[tx.origin := Next64(CachedNonce(cache1, tx.origin))];
    Processed(cache2, height, raw, buffered + tx.writes, true)
  }

  datatype Step = Check(tx: Tx, inc: bool, height: int) | Deliver(tx: Tx, inc: bool, height: int)

  datatype Outcome = Outcome(state: State, ok: bool)

  function Apply(s: State, step: Step): Outcome {
    match step
    case Check(tx, inc, height) =>
      if height == 0 then Outcome(s, true)
      else
        var p := Process(s, tx, true, inc, height);
        Outcome(State(p.raw, p.cache, p.lastHeight), p.ok)
    case Deliver(tx, inc, height) =>
      var p := Process(s, tx, false, inc, height);
      Outcome(State(if p.ok then AllApplied(p.raw, p.writes) else p.raw, p.cache, p.lastHeight), p.ok)
  }

  /*** One step ***/

  function NonceOf(s: State, account: Bytes): nat { Stored(s.store, NonceKey(account)) }

  /** Checking a transaction never changes the store. */
  lemma CheckLeavesStore(s: State, tx: Tx, inc: bool, height: int)
    ensures Apply(s, Check(tx, inc, height)).state.store == s.store
  {
  }

  /** The buffered writes of a handler change no nonce; the sequence write in front of them changes one. */
  lemma CommittedNonce(m: Map, writes: seq<TempTx>, account: Bytes)
    requires forall t, a | t in writes :: t.key != NonceKey(a)
    ensures Lookup(AllApplied(m, writes), NonceKey(account)) == Lookup(m, NonceKey(account))
  {
    UntouchedKey(m, writes, NonceKey(account));
  }

  lemma {:induction false} AppliedAppend(m: Map, a: seq<TempTx>, b: seq<TempTx>)
    ensures AllApplied(m, a + b) == AllApplied(AllApplied(m, a), b)
  {
    if b == [] {
      assert a + b == a;
    } else {
      AppliedAppend(m, a, b[..|b| - 1]);
      assert (a + b)[..|a + b| - 1] == a + b[..|b| - 1];
    }
  }

  /** A delivered transaction advances the nonce of its origin by one exactly when it succeeds or failures count. */
  lemma DeliverAdvances(s: State, tx: Tx, inc: bool, height: int, account: Bytes)
    requires LeavesNonces(tx) && WellStored(s.store)
    ensures var r := Apply(s, Deliver(tx, inc, height));
      && NonceOf(r.state, account) ==
         (if account == tx.origin != [] && (r.ok || inc) then Next64(NonceOf(s, account)) else NonceOf(s, account))
      && (r.ok ==> tx.origin != [] && tx.sequence == Next64(NonceOf(s, tx.origin)))
      && (NonceKey(account) in r.state.store ==> |r.state.store[NonceKey(account)]| == 8)
  {
    NonceKeysDiffer(account, tx.origin);
    var key := NonceKey(tx.origin);
    var p := Process(s, tx, false, inc, height);
    assert NonceKey(tx.origin) in s.store ==> Stored(s.store, key) <= MAX_UINT64;
    AdvancedValue(s.store, tx.origin);
    if p.ok {
      CommittedNonce(Advanced(s.store, tx.origin), tx.writes, account);
      if inc {
        assert p.writes == tx.writes;
      } else {
        var first := TxSet(key, BigEndian(Next64(Stored(s.store, key)), 8));
        AppliedAppend(s.store, [first], tx.writes);
        assert AllApplied(s.store, [first]) == Advanced(s.store, tx.origin);
      }
    }
  }

  /** No key of a nonce. */
  ghost predicate OtherKey(k: Bytes) {
    forall a: Bytes :: k != NonceKey(a)
  }

  /** A delivery succeeds exactly for a signed, well-formed transaction that carries the next nonce and runs through. */
  lemma DeliverSucceeds(s: State, tx: Tx, inc: bool, height: int)
    ensures Apply(s, Deliver(tx, inc, height)).ok <==>
            && tx.origin != [] && tx.wellFormed && tx.succeeds
            && tx.sequence == Next64(NonceOf(s, tx.origin))
  {
  }

  lemma {:induction false} AppliedElsewhere(m: Map, m': Map, writes: seq<TempTx>, k: Bytes)
    requires Lookup(m, k) == Lookup(m', k)
    ensures Lookup(AllApplied(m, writes), k) == Lookup(AllApplied(m', writes), k)
  {
    if writes != [] { AppliedElsewhere(m, m', writes[..|writes| - 1], k); }
  }

  /** On all keys but the nonces, a successful delivery applies exactly the transaction's writes, a failed one none. */
  lemma DeliverWrites(s: State, tx: Tx, inc: bool, height: int, k: Bytes)
    requires OtherKey(k)
    ensures var r := Apply(s, Deliver(tx, inc, height));
      Lookup(r.state.store, k) == Lookup(if r.ok then AllApplied(s.store, tx.writes) else s.store, k)
  {
    var r := Apply(s, Deliver(tx, inc, height));
    if tx.origin != [] {
      var key := NonceKey(tx.origin);
      var advanced := Advanced(s.store, tx.origin);
      assert k != key;
      AppliedElsewhere(advanced, s.store, tx.writes, k);
      if r.ok && !inc {
        var first := TxSet(key, BigEndian(Next64(Stored(s.store, key)), 8));
        AppliedAppend(s.store, [first], tx.writes);
        assert AllApplied(s.store, [first]) == advanced;
      } else if r.ok {
        assert [] + tx.writes == tx.writes;
      }
    }
  }

  /** The nonce a check expects: the cached one of this block if there is one, else the next one of the store. */
  function Expected(s: State, origin: Bytes, height: int): nat {
    if s.lastHeight == height && CachedNonce(s.cache, origin) != 0 then s.cache[origin]
    else Next64(NonceOf(s, origin))
  }

  /** A check succeeds exactly for a signed, well-formed transaction with the expected nonce that runs through. */
  lemma CheckSucceeds(s: State, tx: Tx, inc: bool, height: int)
    ensures Apply(s, Check(tx, inc, height)).ok <==>
            || height == 0
            || (&& tx.origin != [] && tx.wellFormed && tx.succeeds
                && tx.sequence == Expected(s, tx.origin, height))
  {
  }

  /**
   * After a check in a block the expected nonce is the one behind it if it succeeded, so that the next transaction of
   * the account can be checked before this one is delivered; else it is as before.
   */
  lemma CheckExpectsNext(s: State, tx: Tx, inc: bool, height: int)
    requires height != 0 && tx.origin != []
    ensures var r := Apply(s, Check(tx, inc, height));
      Expected(r.state, tx.origin, height) ==
      if r.ok && tx.sequence != MAX_UINT64 then tx.sequence + 1 else if r.ok then Next64(NonceOf(s, tx.origin))
      else Expected(s, tx.origin, height)
  {
  }

  /** After a delivery a check expects the next nonce of the store, whatever was checked before. */
  lemma DeliverExpectsNext(s: State, tx: Tx, inc: bool, height: int)
    requires WellStored(s.store) && LeavesNonces(tx) && tx.origin != [] && tx.wellFormed
    ensures var t := Apply(s, Deliver(tx, inc, height)).state;
      Expected(t, tx.origin, height) == Next64(NonceOf(t, tx.origin))
  {
    DeliverAdvances(s, tx, inc, height, tx.origin);
  }

  /** Other accounts keep their cached nonce within a block; a new block clears all of them. */
  lemma OtherNoncesStay(s: State, step: Step, account: Bytes)
    requires account != step.tx.origin && step.tx.origin != [] && (step.Check? ==> step.height != 0)
    ensures var t := Apply(s, step).state;
      && t.lastHeight == step.height
      && (account in t.cache <==> s.lastHeight == step.height && account in s.cache)
      && (account in t.cache ==> t.cache[account] == s.cache[account])
  {
  }

  lemma StepNonce(s: State, step: Step, account: Bytes)
    requires LeavesNonces(step.tx) && WellStored(s.store)
    ensures var r := Apply(s, step);
      NonceOf(r.state, account) ==
      if step.Deliver? && account == step.tx.origin != [] && (r.ok || step.inc) then Next64(NonceOf(s, account))
      else NonceOf(s, account)
  {
    if step.Deliver? {
      DeliverAdvances(s, step.tx, step.inc, step.height, account);
    } else {
      CheckLeavesStore(s, step.tx, step.inc, step.height);
    }
  }

  lemma StepKeepsStored(s: State, step: Step)
    requires WellStored(s.store) && LeavesNonces(step.tx)
    ensures WellStored(Apply(s, step).state.store)
  {
    if step.Deliver? {
      forall a: Bytes | NonceKey(a) in Apply(s, step).state.store
        ensures |Apply(s, step).state.store[NonceKey(a)]| == 8 &&
                Stored(Apply(s, step).state.store, NonceKey(a)) <= MAX_UINT64
      {
        DeliverAdvances(s, step.tx, step.inc, step.height, a);
        assert NonceKey(a) in s.store ==> Stored(s.store, NonceKey(a)) <= MAX_UINT64;
      }
    }
  }

  /*** Runs ***/

  ghost predicate IsRun(states: seq<State>, steps: seq<Step>) {
    && |states| == |steps| + 1
    && states[0] == State(map[], map[], 0)
    && (forall i | 0 <= i < |steps| :: LeavesNonces(steps[i].tx) && states[i + 1] == Apply(states[i], steps[i]).state)
  }

  lemma {:induction false} RunKeepsStored(states: seq<State>, steps: seq<Step>, i: nat)
    requires IsRun(states, steps) && i <= |steps|
    ensures WellStored(states[i].store)
  {
    if i > 0 {
      RunKeepsStored(states, steps, i - 1);
      StepKeepsStored(states[i - 1], steps[i - 1]);
    }
  }

  /** Step `i` delivers and commits a transaction of the account. */
  predicate Commits(states: seq<State>, steps: seq<Step>, i: nat, account: Bytes)
    requires i < |steps| && i < |states|
  {
    steps[i].Deliver? && steps[i].tx.origin == account && Apply(states[i], steps[i]).ok
  }

  /** No account has used up its 64-bit nonces. */
  predicate NonceLeft(states: seq<State>, steps: seq<Step>, account: Bytes)
    requires |steps| <= |states|
  {
    forall i | 0 <= i < |steps| :: NonceOf(states[i], account) < MAX_UINT64
  }

  lemma {:induction false} NonceGrows(states: seq<State>, steps: seq<Step>, i: nat, j: nat, account: Bytes)
    requires IsRun(states, steps) && i <= j <= |steps| && NonceLeft(states, steps, account)
    ensures NonceOf(states[i], account) <= NonceOf(states[j], account)
  {
    if i < j {
      NonceGrows(states, steps, i, j - 1, account);
      RunKeepsStored(states, steps, j - 1);
      StepNonce(states[j - 1], steps[j - 1], account);
    }
  }

  /** Replay protection: the sequence numbers an account commits strictly increase, in every run. */
  lemma CommittedSequencesIncrease(states: seq<State>, steps: seq<Step>, i: nat, j: nat, account: Bytes)
    requires IsRun(states, steps) && i < j < |steps| && NonceLeft(states, steps, account)
    requires Commits(states, steps, i, account) && Commits(states, steps, j, account)
    ensures steps[i].tx.sequence < steps[j].tx.sequence
  {
    RunKeepsStored(states, steps, i);
    RunKeepsStored(states, steps, j);
    DeliverAdvances(states[i], steps[i].tx, steps[i].inc, steps[i].height, account);
    DeliverAdvances(states[j], steps[j].tx, steps[j].inc, steps[j].height, account);
    NonceGrows(states, steps, i + 1, j, account);
  }

  function CommitCount(states: seq<State>, steps: seq<Step>, k: nat, account: Bytes): nat
    requires k <= |steps| <= |states|
  {
    if k == 0 then 0
    else CommitCount(states, steps, k - 1, account) + if Commits(states, steps, k - 1, account) then 1 else 0
  }

  /**
   * While failed transactions do not count, the nonce is the number of committed transactions; so the n-th
   * one carries the number n and there are no gaps.
   */
  lemma {:induction false} NoGaps(states: seq<State>, steps: seq<Step>, k: nat, account: Bytes)
    requires IsRun(states, steps) && k <= |steps| && NonceLeft(states, steps, account)
    requires forall i | 0 <= i < |steps| :: !steps[i].inc
    ensures NonceOf(states[k], account) == CommitCount(states, steps, k, account)
    ensures k < |steps| && Commits(states, steps, k, account) ==>
              steps[k].tx.sequence == CommitCount(states, steps, k, account) + 1
  {
    RunKeepsStored(states, steps, k);
    if k > 0 {
      NoGaps(states, steps, k - 1, account);
      RunKeepsStored(states, steps, k - 1);
      StepNonce(states[k - 1], steps[k - 1], account);
    }
    if k < |steps| && Commits(states, steps, k, account) {
      DeliverAdvances(states[k], steps[k].tx, steps[k].inc, steps[k].height, account);
    }
  }

  /*** The cache of expected nonces ***/

  /** No cached nonce is one that was used already. */
  ghost predicate CacheAhead(s: State) {
    forall a | a in s.cache :: s.cache[a] > NonceOf(s, a)
  }

  /** The origin has nonces left, in the store and in the cache. */
  ghost predicate Room(s: State, tx: Tx) {
    && NonceOf(s, tx.origin) < MAX_UINT64 - 1
    && (tx.origin in s.cache ==> s.cache[tx.origin] < MAX_UINT64)
  }

  lemma CheckKeepsCacheAhead(s: State, tx: Tx, inc: bool, height: int)
    requires CacheAhead(s) && Room(s, tx)
    ensures CacheAhead(Apply(s, Check(tx, inc, height)).state)
  {
  }

  /**
   * A delivery keeps the cache ahead of the store exactly unless it is malformed, counts nevertheless, and
   * uses up the very nonce the cache expects.
   */
  lemma DeliverKeepsCacheAhead(s: State, tx: Tx, inc: bool, height: int)
    requires CacheAhead(s) && WellStored(s.store) && LeavesNonces(tx) && Room(s, tx)
    ensures CacheAhead(Apply(s, Deliver(tx, inc, height)).state) <==>
            !(&& inc && !tx.wellFormed && tx.origin != [] && s.lastHeight == height
              && tx.origin in s.cache && s.cache[tx.origin] == NonceOf(s, tx.origin) + 1)
  {
    var t := Apply(s, Deliver(tx, inc, height)).state;
    var ok := Apply(s, Deliver(tx, inc, height)).ok;
    forall a
      ensures NonceOf(t, a) == if a == tx.origin != [] && (ok || inc) then Next64(NonceOf(s, a)) else NonceOf(s, a)
    {
      DeliverAdvances(s, tx, inc, height, a);
    }
  }

  /** While all transactions are well-formed, no cached nonce is ever a used one. */
  lemma {:induction false} RunKeepsCacheAhead(states: seq<State>, steps: seq<Step>, k: nat)
    requires IsRun(states, steps) && k <= |steps|
    requires forall i | 0 <= i < |steps| :: steps[i].tx.wellFormed && Room(states[i], steps[i].tx)
    ensures CacheAhead(states[k])
  {
    if k > 0 {
      RunKeepsCacheAhead(states, steps, k - 1);
      RunKeepsStored(states, steps, k - 1);
      var s, step := states[k - 1], steps[k - 1];
      if step.Check? {
        CheckKeepsCacheAhead(s, step.tx, step.inc, step.height);
      } else {
        DeliverKeepsCacheAhead(s, step.tx, step.inc, step.height);
      }
    }
  }

  /*** The handler and the application ***/

  class NonceHandler {
    var nonceCache: map<Bytes, nat>
    var lastHeight: int

    constructor ()
      ensures nonceCache == map[] && lastHeight == 0
    {
      nonceCache, lastHeight := map[], 0;
    }

    /** The middleware, followed by the transaction handler and the post-commit middleware. */
    method Nonce(state: CacheTx, kvStore: KVStore, tx: Tx, isCheck: bool, inc: bool, height: int) returns (ok: bool)
      requires state.Valid() && state.tmpTxs == [] && state.store == kvStore
      requires tx.origin != [] && NonceKey(tx.origin) in kvStore.m ==> |kvStore.m[NonceKey(tx.origin)]| == 8
      modifies this, state, kvStore
      ensures state.Valid() && state.store == kvStore
      ensures Processed(nonceCache, lastHeight, kvStore.m, state.tmpTxs, ok)
           == Process(old(State(kvStore.m, nonceCache, lastHeight)), tx, isCheck, inc, height)
    {
      if tx.origin == [] {
        return false;
      }
      if lastHeight != height {
        lastHeight, nonceCache := height, map[];
      }
      var expected;
      if inc && !isCheck {
        expected := NextInStore(kvStore, tx.origin);
      } else {
        expected := NextInTx(state, tx.origin);
      }
      if !tx.wellFormed {
        return false;
      }
      var known := CachedNonce(nonceCache, tx.origin);
      if known != 0 && isCheck {
        expected := known;
      } else if inc && !isCheck {
        nonceCache := nonceCache[tx.origin := Next64(expected)];
      } else {
        nonceCache := nonceCache[tx.origin := expected];
      }
      if tx.sequence != expected {
        return false;
      }
      RunHandler(state, tx.writes);
      if !tx.succeeds {
        return false;
      }
      IncNonce(tx.origin, isCheck, inc);
      ok := true;
    }

    method IncNonce(origin: Bytes, isCheck: bool, inc: bool)
      modifies this`nonceCache
      ensures nonceCache == if inc && !isCheck then old(nonceCache)
                            else old(nonceCache)[origin := Next64(CachedNonce(old(nonceCache), origin))]
    {
      if inc {
        if isCheck {
          nonceCache := nonceCache[origin := Next64(CachedNonce(nonceCache, origin))];
        }
      } else {
        nonceCache := nonceCache[origin := Next64(CachedNonce(nonceCache, origin))];
      }
    }
  }

  /** Advance the sequence in the raw store. */
  method NextInStore(store: KVStore, account: Bytes) returns (n: nat)
    modifies store
    ensures n == Next64(Stored(old(store.m), NonceKey(account))) && store.m == Advanced(old(store.m), account)
  {
    n := Next64(Stored(store.m, NonceKey(account)));
    store.m := store.m[NonceKey(account) := BigEndian(n, 8)];
  }

  /** Advance the sequence in a transaction that has written nothing yet. */
  method NextInTx(state: CacheTx, account: Bytes) returns (n: nat)
    requires state.Valid() && state.tmpTxs == []
    modifies state
    ensures state.Valid()
    ensures n == Next64(Stored(state.store.m, NonceKey(account)))
    ensures state.tmpTxs == [TxSet(NonceKey(account), BigEndian(n, 8))]
  {
    var data := state.Get(NonceKey(account));
    n := Next64(if data == [] then 0 else FromBigEndian(data));
    state.Set(NonceKey(account), BigEndian(n, 8));
  }

  /** The handler's writes go to the transaction. */
  method RunHandler(state: CacheTx, writes: seq<TempTx>)
    requires state.Valid()
    modifies state
    ensures state.Valid() && state.tmpTxs == old(state.tmpTxs) + writes
  {
    for i := 0 to |writes|
      invariant state.Valid() && state.tmpTxs == old(state.tmpTxs) + writes[..i]
    {
      match writes[i]
      case TxSet(key, value) => state.Set(key, value);
      case TxDelete(key) => state.Delete(key);
    }
  }

  class Application {
    const store: KVStore
    const handler: NonceHandler

    function View(): State
      reads this, store, handler
    {
      State(store.m, handler.nonceCache, handler.lastHeight)
    }

    constructor ()
      ensures View() == State(map[], map[], 0)
    {
      store := new KVStore();
      handler := new NonceHandler();
    }

    method CheckTx(tx: Tx, inc: bool, height: int) returns (ok: bool)
      requires WellStored(store.m)
      modifies store, handler
      ensures Outcome(View(), ok) == Apply(old(View()), Check(tx, inc, height))
    {
      if height == 0 {
        return true;
      }
      var storeTx := new CacheTx(store);
      ok := handler.Nonce(storeTx, store, tx, true, inc, height);
      storeTx.Rollback();
    }

    method DeliverTx(tx: Tx, inc: bool, height: int) returns (ok: bool)
      requires WellStored(store.m)
      modifies store, handler
      ensures Outcome(View(), ok) == Apply(old(View()), Deliver(tx, inc, height))
    {
      var storeTx := new CacheTx(store);
      ok := handler.Nonce(storeTx, store, tx, false, inc, height);
      if ok {
        storeTx.Commit();
      }
      storeTx.Rollback();
    }
  }
}
