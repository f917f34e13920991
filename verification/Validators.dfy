/** Weighted validator sets, and the arithmetic of voting power over sets of validators. */
module Validators {
  import opened Prelude

  /** Voting power is positive: the override list refuses anything else (fnConsensus/config.go). */
  datatype Validator = Validator(address: Bytes, pubKey: Bytes, power: nat)

  datatype Threshold = Maj23 | All

  ghost predicate PositivePowers(vals: seq<Validator>) {
    forall i | 0 <= i < |vals| :: vals[i].power > 0
  }

  /** Voting power of the marked validators among the first `k`. */
  function Power(vals: seq<Validator>, marks: seq<bool>, k: nat): (p: nat)
    requires k <= |vals| && k <= |marks|
  {
    if k == 0 then 0
    else Power(vals, marks, k - 1) + if marks[k - 1] then vals[k - 1].power else 0
  }

  function Total(vals: seq<Validator>, k: nat): (p: nat)
    requires k <= |vals|
  {
    if k == 0 then 0 else Total(vals, k - 1) + vals[k - 1].power
  }

  function TotalPower(vals: seq<Validator>): nat {
    Total(vals, |vals|)
  }

  function Count(marks: seq<bool>, k: nat): (c: nat)
    requires k <= |marks|
  {
    if k == 0 then 0 else Count(marks, k - 1) + if marks[k - 1] then 1 else 0
  }

  predicate Reached(t: Threshold, power: int, vals: seq<Validator>) {
    match t
    case Maj23 => power >= TotalPower(vals) * 2 / 3 + 1
    case All => power == TotalPower(vals)
  }

  function Both(a: seq<bool>, b: seq<bool>): (c: seq<bool>)
    requires |a| == |b|
    ensures |c| == |a|
  {
    seq(|a|, i requires 0 <= i < |a| => a[i] && b[i])
  }

  function Either(a: seq<bool>, b: seq<bool>): (c: seq<bool>)
    requires |a| == |b|
    ensures |c| == |a|
  {
    seq(|a|, i requires 0 <= i < |a| => a[i] || b[i])
  }

  lemma {:induction false} PowerAtMostTotal(vals: seq<Validator>, marks: seq<bool>, k: nat)
    requires k <= |vals| && k <= |marks|
    ensures Power(vals, marks, k) <= Total(vals, k)
  {
    if k > 0 { PowerAtMostTotal(vals, marks, k - 1); }
  }

  lemma {:induction false} PowerMonotone(vals: seq<Validator>, a: seq<bool>, b: seq<bool>, k: nat)
    requires k <= |vals| && k <= |a| && k <= |b|
    requires forall i | 0 <= i < k :: a[i] ==> b[i]
    ensures Power(vals, a, k) <= Power(vals, b, k)
  {
    if k > 0 { PowerMonotone(vals, a, b, k - 1); }
  }

  /** Changing no mark among the first `k` changes no power. */
  lemma {:induction false} PowerCongruent(vals: seq<Validator>, a: seq<bool>, b: seq<bool>, k: nat)
    requires k <= |vals| && k <= |a| && k <= |b|
    requires forall i | 0 <= i < k :: a[i] == b[i]
    ensures Power(vals, a, k) == Power(vals, b, k)
  {
    PowerMonotone(vals, a, b, k);
    PowerMonotone(vals, b, a, k);
  }

  /** Inclusion and exclusion for voting power. */
  lemma {:induction false} PowerOverlap(vals: seq<Validator>, a: seq<bool>, b: seq<bool>, k: nat)
    requires k <= |vals| && k <= |a| == |b|
    ensures Power(vals, a, k) + Power(vals, b, k) == Power(vals, Either(a, b), k) + Power(vals, Both(a, b), k)
  {
    if k > 0 { PowerOverlap(vals, a, b, k - 1); }
  }

  lemma {:induction false} PowerAddOne(vals: seq<Validator>, a: seq<bool>, j: nat, k: nat)
    requires j < k <= |vals| && k <= |a| && !a[j]
    ensures Power(vals, a[j := true], k) == Power(vals, a, k) + vals[j].power
  {
    if j == k - 1 {
      PowerCongruent(vals, a[j := true], a, k - 1);
    } else {
      PowerAddOne(vals, a, j, k - 1);
    }
  }

  lemma {:induction false} CountAddOne(a: seq<bool>, j: nat, k: nat)
    requires j < k <= |a| && !a[j]
    ensures Count(a[j := true], k) == Count(a, k) + 1
  {
    if j == k - 1 {
      CountCongruent(a[j := true], a, k - 1);
    } else {
      CountAddOne(a, j, k - 1);
    }
  }

  lemma {:induction false} CountCongruent(a: seq<bool>, b: seq<bool>, k: nat)
    requires k <= |a| && k <= |b|
    requires forall i | 0 <= i < k :: a[i] == b[i]
    ensures Count(a, k) == Count(b, k)
  {
    if k > 0 { CountCongruent(a, b, k - 1); }
  }

  lemma {:induction false} CountBounds(a: seq<bool>, k: nat)
    requires k <= |a|
    ensures Count(a, k) <= k
    ensures forall i | 0 <= i < k && a[i] :: Count(a, k) > 0
  {
    if k > 0 { CountBounds(a, k - 1); }
  }

  /** A superset with at least one extra mark counts strictly more. */
  lemma {:induction false} CountGrows(a: seq<bool>, b: seq<bool>, k: nat)
    requires k <= |a| && k <= |b|
    requires forall i | 0 <= i < k :: a[i] ==> b[i]
    ensures Count(a, k) <= Count(b, k)
    ensures (exists i | 0 <= i < k :: b[i] && !a[i]) ==> Count(a, k) < Count(b, k)
  {
    if k > 0 { CountGrows(a, b, k - 1); }
  }

  /** A marked validator contributes its own power, so a positive set of validators has none at zero. */
  lemma {:induction false} PowerAtLeast(vals: seq<Validator>, marks: seq<bool>, j: nat, k: nat)
    requires j < k <= |vals| && k <= |marks| && marks[j]
    ensures Power(vals, marks, k) >= vals[j].power
  {
    if j < k - 1 { PowerAtLeast(vals, marks, j, k - 1); }
  }

  /** The majority threshold is reached by more than two thirds of the power, and by nothing less. */
  lemma Maj23IsTwoThirds(power: int, vals: seq<Validator>)
    ensures Reached(Maj23, power, vals) <==> 3 * power > 2 * TotalPower(vals)
  {
  }

  lemma {:induction false} FullPower(vals: seq<Validator>, marks: seq<bool>, k: nat)
    requires k <= |vals| == |marks| && PositivePowers(vals)
    ensures Power(vals, marks, k) == Total(vals, k) <==> forall i | 0 <= i < k :: marks[i]
  {
    if k > 0 {
      FullPower(vals, marks, k - 1);
      PowerAtMostTotal(vals, marks, k - 1);
    }
  }

  /** The other one is reached when everyone is marked, and only then. */
  lemma AllIsEveryone(vals: seq<Validator>, marks: seq<bool>)
    requires |marks| == |vals| && PositivePowers(vals)
    ensures Reached(All, Power(vals, marks, |vals|), vals) <==> forall i | 0 <= i < |marks| :: marks[i]
  {
    FullPower(vals, marks, |vals|);
  }

  /**
   * Two sets of validators that each reach the threshold share more than a third of the power
   * (all of it, when everyone must sign).
   */
  lemma QuorumsOverlap(t: Threshold, vals: seq<Validator>, a: seq<bool>, b: seq<bool>)
    requires |a| == |b| == |vals|
    requires Reached(t, Power(vals, a, |vals|), vals) && Reached(t, Power(vals, b, |vals|), vals)
    ensures t == Maj23 ==> 3 * Power(vals, Both(a, b), |vals|) > TotalPower(vals)
    ensures t == All ==> Power(vals, Both(a, b), |vals|) == TotalPower(vals)
  {
    PowerOverlap(vals, a, b, |vals|);
    PowerAtMostTotal(vals, Either(a, b), |vals|);
    PowerAtMostTotal(vals, Both(a, b), |vals|);
  }
}
