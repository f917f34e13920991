/** The limiter of contract calls per block window. */
module TxLimiters {
  import opened Prelude

  type Contract = string

  datatype Tier = Tier(blockRange: nat, maxTxs: nat)

  datatype Stats = Stats(txn: nat, blockHeight: int)

  /** Used for counting when a tier has no range set. */
  const FALLBACK_RANGE: nat := 4096

  predicate LimitReached(stats: map<Contract, Stats>, tier: Tier, c: Contract, height: int) {
    c in stats && stats[c].blockHeight > height - tier.blockRange && tier.maxTxs <= stats[c].txn
  }

  function RangeOf(tier: Tier): nat
    ensures RangeOf(tier) > 0
  {
    if tier.blockRange > 0 then tier.blockRange else FALLBACK_RANGE
  }

  function Updated(stats: map<Contract, Stats>, tier: Tier, c: Contract, height: int): map<Contract, Stats> {
    var range := RangeOf(tier);
    if c !in stats || stats[c].blockHeight <= height - range then
      stats[c := Stats(1, (height - 1) / range * range + 1)]
    else
      stats[c := stats[c].(txn := stats[c].txn + 1)]
  }

  datatype Call = Call(contract: Contract, height: int)

  /** The limiter passes the call on unless the limit is reached. */
  predicate Passes(stats: map<Contract, Stats>, tiers: map<Contract, Tier>, call: Call) {
    call.contract in tiers ==> !LimitReached(stats, tiers[call.contract], call.contract, call.height)
  }

  function AfterCall(stats: map<Contract, Stats>, tiers: map<Contract, Tier>, call: Call): map<Contract, Stats> {
    if call.contract in tiers && Passes(stats, tiers, call)
    then Updated(stats, tiers[call.contract], call.contract, call.height)
    else stats
  }

  class ContractTxLimiter {
    var tiers: map<Contract, Tier>
    var statsMap: map<Contract, Stats>

    constructor (tiers: map<Contract, Tier>)
      ensures this.tiers == tiers && statsMap == map[]
    {
      this.tiers, statsMap := tiers, map[];
    }

    method IsAccountLimitReached(c: Contract, height: int) returns (b: bool)
      requires c in tiers
      ensures b == LimitReached(statsMap, tiers[c], c, height)
    {
      if c !in statsMap {
        return false;
      }
      var tier := tiers[c];
      if statsMap[c].blockHeight <= height - tier.blockRange || tier.maxTxs > statsMap[c].txn {
        return false;
      }
      b := true;
    }

    method UpdateState(c: Contract, height: int)
      requires c in tiers && height >= 1
      modifies this`statsMap
      ensures statsMap == Updated(old(statsMap), tiers[c], c, height)
    {
      var range := FALLBACK_RANGE;
      if tiers[c].blockRange > 0 {
        range := tiers[c].blockRange;
      }
      if c !in statsMap || statsMap[c].blockHeight <= height - range {
        var rangeStart := (height - 1) / range * range + 1;
        statsMap := statsMap[c := Stats(1, rangeStart)];
        return;
      }
      statsMap := statsMap[c := statsMap[c].(txn := statsMap[c].txn + 1)];
    }

    /** A call checked for the mempool: unknown contracts are not throttled. */
    method Handle(call: Call) returns (passed: bool)
      requires call.height >= 1
      modifies this`statsMap
      ensures passed == Passes(old(statsMap), tiers, call)
      ensures statsMap == AfterCall(old(statsMap), tiers, call)
    {
      if call.contract !in tiers {
        return true;
      }
      var reached := IsAccountLimitReached(call.contract, call.height);
      if reached {
        return false;
      }
      UpdateState(call.contract, call.height);
      passed := true;
    }
  }

  /*** Runs ***/

  predicate IsRun(states: seq<map<Contract, Stats>>, tiers: map<Contract, Tier>, calls: seq<Call>) {
    && |states| == |calls| + 1
    && states[0] == map[]
    && (forall i | 0 <= i < |calls| :: calls[i].height >= 1)
    && (forall i, j | 0 <= i < j < |calls| :: calls[i].height <= calls[j].height)
    && (forall i | 0 <= i < |calls| :: states[i + 1] == AfterCall(states[i], tiers, calls[i]))
  }

  /** Calls of a contract at heights lo to hi that the limiter passed on, among the first k. */
  function Passed(
    states: seq<map<Contract, Stats>>, tiers: map<Contract, Tier>, calls: seq<Call>, c: Contract,
    lo: int, hi: int, k: nat
  ): nat
    requires k <= |calls| <= |states|
  {
    if k == 0 then 0
    else
      var call := calls[k - 1];
      Passed(states, tiers, calls, c, lo, hi, k - 1) +
      if call.contract == c && lo <= call.height <= hi && Passes(states[k - 1], tiers, call) then 1 else 0
  }

  /** The aligned windows of a range: window q holds the heights q*r+1 to (q+1)*r. */
  function WindowOf(height: int, r: nat): int
    requires r > 0
  {
    (height - 1) / r
  }

  lemma InWindow(height: int, q: int, r: nat)
    requires r > 0
    ensures q * r + 1 <= height <= (q + 1) * r <==> WindowOf(height, r) == q
  {
    var d := (height - 1) / r;
    assert d * r <= height - 1 < d * r + r;
    if d < q {
      TimesOrder(d + 1, q, r);
    } else if d > q {
      TimesOrder(q + 1, d, r);
    }
    TimesSucc(d, r);
    TimesSucc(q, r);
  }

  function Bound(tier: Tier): nat { if tier.maxTxs == 0 then 1 else tier.maxTxs }

  /** The entry of a contract counts the calls passed in its window; later windows have seen none. */
  ghost predicate EntryOk(entry: Stats, tier: Tier, q: int, passed: nat)
    requires tier.blockRange > 0
  {
    var p := WindowOf(entry.blockHeight, tier.blockRange);
    && entry.blockHeight == p * tier.blockRange + 1
    && 1 <= entry.txn <= Bound(tier)
    && (q > p ==> passed == 0)
    && (q == p ==> passed == entry.txn)
    && passed <= Bound(tier)
  }

  /** One more call at `height`, in window w of the contract, keeps the entry in order. */
  lemma EntryStep(entry: Stats, tier: Tier, q: int, passed: nat, height: int)
    requires tier.blockRange > 0 && EntryOk(entry, tier, q, passed) && entry.blockHeight <= height
    ensures var w := WindowOf(height, tier.blockRange);
      var reset := entry.blockHeight <= height - tier.blockRange;
      && (reset <==> w > WindowOf(entry.blockHeight, tier.blockRange))
      && (reset ==> EntryOk(Stats(1, w * tier.blockRange + 1), tier, q, passed + if w == q then 1 else 0))
      && (!reset && tier.maxTxs > entry.txn ==>
            EntryOk(entry.(txn := entry.txn + 1), tier, q, passed + if w == q then 1 else 0))
  {
    var r := tier.blockRange;
    var w, p := WindowOf(height, r), WindowOf(entry.blockHeight, r);
    InWindow(height, w, r);
    InWindow(height, p, r);
    InWindow(entry.blockHeight, p, r);
    InWindow(w * r + 1, w, r);
    assert (p + 1) * r == p * r + r && (w + 1) * r == w * r + r;
    assert w + 1 <= p ==> (w + 1) * r <= p * r;
  }

  /** The first call of a contract opens its entry. */
  lemma FirstEntry(tier: Tier, q: int, height: int)
    requires tier.blockRange > 0
    ensures var w := WindowOf(height, tier.blockRange);
      && EntryOk(Stats(1, w * tier.blockRange + 1), tier, q, if w == q then 1 else 0)
      && w * tier.blockRange + 1 <= height
  {
    var r := tier.blockRange;
    var w := WindowOf(height, r);
    InWindow(height, w, r);
    InWindow(w * r + 1, w, r);
    TimesSucc(w, r);
  }

  /** Window q of a contract holds the heights lo to hi. */
  predicate IsWindow(tier: Tier, q: int, lo: int, hi: int) {
    lo == q * tier.blockRange + 1 && hi == (q + 1) * tier.blockRange
  }

  lemma {:induction false} WindowInvariant(
    states: seq<map<Contract, Stats>>, tiers: map<Contract, Tier>, calls: seq<Call>, c: Contract,
    q: int, lo: int, hi: int, k: nat)
    requires IsRun(states, tiers, calls) && c in tiers && tiers[c].blockRange > 0 && k <= |calls|
    requires IsWindow(tiers[c], q, lo, hi)
    ensures var passed := Passed(states, tiers, calls, c, lo, hi, k);
      if c in states[k] then
        && EntryOk(states[k][c], tiers[c], q, passed)
        && k > 0 && states[k][c].blockHeight <= calls[k - 1].height
      else passed == 0
  {
    if k > 0 {
      WindowInvariant(states, tiers, calls, c, q, lo, hi, k - 1);
      var call, tier := calls[k - 1], tiers[c];
      if call.contract == c {
        InWindow(call.height, q, tier.blockRange);
        FirstEntry(tier, q, call.height);
        if c in states[k - 1] {
          EntryStep(states[k - 1][c], tier, q, Passed(states, tiers, calls, c, lo, hi, k - 1), call.height);
        }
      }
    }
  }

  /** In every run, a call is refused exactly when its contract has used up the current window. */
  lemma CallPasses(
    states: seq<map<Contract, Stats>>, tiers: map<Contract, Tier>, calls: seq<Call>, k: nat)
    requires IsRun(states, tiers, calls) && k < |calls|
    ensures var c := calls[k].contract;
      Passes(states[k], tiers, calls[k]) <==>
      || c !in tiers || tiers[c].blockRange == 0
      || var r := tiers[c].blockRange;
         var q := WindowOf(calls[k].height, r);
         Passed(states, tiers, calls, c, q * r + 1, (q + 1) * r, k) < Bound(tiers[c])
  {
    var c := calls[k].contract;
    if c in tiers && tiers[c].blockRange == 0 {
      NoRangeNoLimit(states, tiers, calls, c, k);
    } else if c in tiers {
      var r := tiers[c].blockRange;
      var q := WindowOf(calls[k].height, r);
      CallPassesInWindow(states, tiers, calls, c, q, q * r + 1, (q + 1) * r, k);
    }
  }

  lemma CallPassesInWindow(
    states: seq<map<Contract, Stats>>, tiers: map<Contract, Tier>, calls: seq<Call>, c: Contract,
    q: int, lo: int, hi: int, k: nat)
    requires IsRun(states, tiers, calls) && k < |calls| && calls[k].contract == c && c in tiers
    requires tiers[c].blockRange > 0 && IsWindow(tiers[c], q, lo, hi)
    requires q == WindowOf(calls[k].height, tiers[c].blockRange)
    ensures Passes(states[k], tiers, calls[k]) <==> Passed(states, tiers, calls, c, lo, hi, k) < Bound(tiers[c])
  {
    WindowInvariant(states, tiers, calls, c, q, lo, hi, k);
    if c in states[k] {
      EntryRefuses(states[k][c], tiers[c], q, Passed(states, tiers, calls, c, lo, hi, k), calls[k].height);
    }
  }

  lemma EntryRefuses(entry: Stats, tier: Tier, q: int, passed: nat, height: int)
    requires tier.blockRange > 0 && EntryOk(entry, tier, q, passed) && entry.blockHeight <= height
    requires q == WindowOf(height, tier.blockRange) && entry.txn >= 1
    ensures entry.blockHeight > height - tier.blockRange && tier.maxTxs <= entry.txn <==> passed >= Bound(tier)
  {
    EntryStep(entry, tier, q, passed, height);
    var p := WindowOf(entry.blockHeight, tier.blockRange);
    InWindow(height, q, tier.blockRange);
    if q < p {
      TimesOrder(q + 1, p, tier.blockRange);
    }
  }

  /** In every run, in every aligned window, at most `maxTxs` calls of a contract pass (one, if that is 0). */
  lemma WindowBound(
    states: seq<map<Contract, Stats>>, tiers: map<Contract, Tier>, calls: seq<Call>, c: Contract, q: int)
    requires IsRun(states, tiers, calls) && c in tiers && tiers[c].blockRange > 0
    ensures Passed(states, tiers, calls, c, q * tiers[c].blockRange + 1, (q + 1) * tiers[c].blockRange, |calls|)
         <= Bound(tiers[c])
  {
    var r := tiers[c].blockRange;
    WindowInvariant(states, tiers, calls, c, q, q * r + 1, (q + 1) * r, |calls|);
  }

  /** The limiter lets at most `bound` calls of the contract pass in a window, in every run. */
  ghost predicate Limits(tiers: map<Contract, Tier>, c: Contract, bound: nat)
    requires c in tiers && tiers[c].blockRange > 0
  {
    forall states, calls, q | IsRun(states, tiers, calls) :: PassedInWindow(states, tiers, calls, c, q) <= bound
  }

  function PassedInWindow(
    states: seq<map<Contract, Stats>>, tiers: map<Contract, Tier>, calls: seq<Call>, c: Contract, q: int): nat
    requires c in tiers && IsRun(states, tiers, calls)
  {
    Passed(states, tiers, calls, c, q * tiers[c].blockRange + 1, (q + 1) * tiers[c].blockRange, |calls|)
  }

  /** The run of n calls of the contract, all at one height, passes exactly as many as the bound allows. */
  lemma {:induction false} BoundIsReached(tiers: map<Contract, Tier>, c: Contract, height: int, n: nat)
    returns (states: seq<map<Contract, Stats>>, calls: seq<Call>)
    requires c in tiers && tiers[c].blockRange > 0 && height >= 1 && 1 <= n <= Bound(tiers[c])
    ensures IsRun(states, tiers, calls) && |calls| == n && forall i | 0 <= i < n :: calls[i] == Call(c, height)
    ensures PassedInWindow(states, tiers, calls, c, WindowOf(height, tiers[c].blockRange)) == n
    ensures c in states[n] && states[n][c] == Stats(n, WindowOf(height, tiers[c].blockRange) * tiers[c].blockRange + 1)
  {
    var r := tiers[c].blockRange;
    var q := WindowOf(height, r);
    InWindow(height, q, r);
    var call := Call(c, height);
    if n == 1 {
      states, calls := [map[], AfterCall(map[], tiers, call)], [call];
      assert Passed(states, tiers, calls, c, q * r + 1, (q + 1) * r, 0) == 0;
    } else {
      var before, earlier := BoundIsReached(tiers, c, height, n - 1);
      assert (q + 1) * r == q * r + r;
      calls := earlier + [call];
      states := before + [AfterCall(before[n - 1], tiers, call)];
      PassedExtends(before, states, tiers, earlier, calls, c, q * r + 1, (q + 1) * r, n - 1);
    }
  }

  lemma {:induction false} PassedExtends(
    s: seq<map<Contract, Stats>>, s': seq<map<Contract, Stats>>, tiers: map<Contract, Tier>,
    calls: seq<Call>, calls': seq<Call>, c: Contract, lo: int, hi: int, k: nat)
    requires k <= |calls| <= |s| && calls <= calls' && s <= s' && |calls'| <= |s'|
    ensures Passed(s, tiers, calls, c, lo, hi, k) == Passed(s', tiers, calls', c, lo, hi, k)
  {
    if k > 0 { PassedExtends(s, s', tiers, calls, calls', c, lo, hi, k - 1); }
  }

  /**
   * A number limits the calls per window exactly when it is at least the tier's limit, and not 0: with a limit
   * of 0 one call still passes.
   */
  lemma LimitIsExact(tiers: map<Contract, Tier>, c: Contract, bound: nat)
    requires c in tiers && tiers[c].blockRange > 0
    ensures Limits(tiers, c, bound) <==> bound >= tiers[c].maxTxs && bound >= 1
  {
    if bound >= Bound(tiers[c]) {
      forall states, calls, q | IsRun(states, tiers, calls)
        ensures PassedInWindow(states, tiers, calls, c, q) <= bound
      {
        WindowBound(states, tiers, calls, c, q);
      }
    } else {
      var states, calls := BoundIsReached(tiers, c, 1, Bound(tiers[c]));
      assert PassedInWindow(states, tiers, calls, c, WindowOf(1, tiers[c].blockRange)) > bound;
    }
  }

  lemma {:induction false} PassedSplits(
    states: seq<map<Contract, Stats>>, tiers: map<Contract, Tier>, calls: seq<Call>, c: Contract,
    lo: int, hi: int, a: int, b: int, d: int, k: nat)
    requires k <= |calls| <= |states| && a <= lo && hi <= d
    ensures Passed(states, tiers, calls, c, lo, hi, k)
         <= Passed(states, tiers, calls, c, a, b, k) + Passed(states, tiers, calls, c, b + 1, d, k)
  {
    if k > 0 { PassedSplits(states, tiers, calls, c, lo, hi, a, b, d, k - 1); }
  }

  /** So in any stretch of as many blocks as a window has, at most twice as many calls pass. */
  lemma AnyStretchBound(
    states: seq<map<Contract, Stats>>, tiers: map<Contract, Tier>, calls: seq<Call>, c: Contract, start: int)
    requires IsRun(states, tiers, calls) && c in tiers && tiers[c].blockRange > 0
    ensures Passed(states, tiers, calls, c, start, start + tiers[c].blockRange - 1, |calls|) <= 2 * Bound(tiers[c])
  {
    var r := tiers[c].blockRange;
    var q := WindowOf(start, r);
    InWindow(start, q, r);
    WindowBound(states, tiers, calls, c, q);
    WindowBound(states, tiers, calls, c, q + 1);
    assert (q + 1) * r == q * r + r && (q + 2) * r == (q + 1) * r + r;
    PassedSplits(states, tiers, calls, c, start, start + r - 1, q * r + 1, (q + 1) * r, (q + 2) * r, |calls|);
  }

  lemma {:induction false} EntriesStartBefore(
    states: seq<map<Contract, Stats>>, tiers: map<Contract, Tier>, calls: seq<Call>, c: Contract, k: nat)
    requires IsRun(states, tiers, calls) && c in tiers && k <= |calls|
    ensures c in states[k] ==> k > 0 && states[k][c].blockHeight <= calls[k - 1].height
  {
    if k > 0 {
      EntriesStartBefore(states, tiers, calls, c, k - 1);
      var r := RangeOf(tiers[c]);
      InWindow(calls[k - 1].height, WindowOf(calls[k - 1].height, r), r);
    }
  }

  /** A tier without a range limits nothing: every call passes. */
  lemma NoRangeNoLimit(
    states: seq<map<Contract, Stats>>, tiers: map<Contract, Tier>, calls: seq<Call>, c: Contract, k: nat)
    requires IsRun(states, tiers, calls) && c in tiers && tiers[c].blockRange == 0
    requires k < |calls| && calls[k].contract == c
    ensures Passes(states[k], tiers, calls[k])
  {
    EntriesStartBefore(states, tiers, calls, c, k);
  }
}
