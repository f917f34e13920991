/** Counting a voteset: the digest that carries the round, who agreed with it, and who submits it. */
module Tally {
  import opened Prelude
  import opened Validators
  import opened VoteSets

  /** The result reached by consensus. */
  datatype Aggregate = Aggregate(hash: Bytes, agreeBits: seq<bool>, oracleSigs: seq<Option<Bytes>>)

  /** The validators whose vote is the digest `d`. */
  function VotersFor(hashes: seq<Option<Bytes>>, d: Bytes): (r: seq<bool>)
    ensures |r| == |hashes|
  {
    seq(|hashes|, i requires 0 <= i < |hashes| => hashes[i] == Some(d))
  }

  /** Byte equality of a digest with a slot: nil and the empty string compare equal. */
  predicate BytesEqual(d: Bytes, slot: Option<Bytes>) {
    d == if slot.Some? then slot.value else []
  }

  /** The slots counted as agreeing with the digest `d`. */
  function AgreeBits(hashes: seq<Option<Bytes>>, d: Bytes): (r: seq<bool>)
    ensures |r| == |hashes|
  {
    seq(|hashes|, i requires 0 <= i < |hashes| => BytesEqual(d, hashes[i]))
  }

  function AgreeingSigs(hashes: seq<Option<Bytes>>, sigs: seq<Option<Bytes>>, d: Bytes): (r: seq<Option<Bytes>>)
    requires |hashes| == |sigs|
    ensures |r| == |hashes|
  {
    seq(|hashes|, i requires 0 <= i < |hashes| => if BytesEqual(d, hashes[i]) then sigs[i] else None)
  }

  function DigestPower(net: Network, hashes: seq<Option<Bytes>>, d: Bytes): nat
    requires |hashes| == net.Size()
  {
    Power(net.validators, VotersFor(hashes, d), net.Size())
  }

  /** Someone voted for `d`, and the power behind it reaches the signing threshold. */
  ghost predicate Carries(net: Network, hashes: seq<Option<Bytes>>, d: Bytes)
    requires |hashes| == net.Size()
  {
    Some(d) in hashes && Reached(net.threshold, DigestPower(net, hashes, d), net.validators)
  }

  /** The declarative tally. */
  ghost function MajResponse(net: Network, hashes: seq<Option<Bytes>>, sigs: seq<Option<Bytes>>): (r: Option<Aggregate>)
    requires |hashes| == |sigs| == net.Size()
    ensures r.Some? <==> exists d :: Carries(net, hashes, d)
    ensures r.Some? ==>
              && Carries(net, hashes, r.value.hash)
              && r.value.agreeBits == AgreeBits(hashes, r.value.hash)
              && r.value.oracleSigs == AgreeingSigs(hashes, sigs, r.value.hash)
  {
    if exists d :: Carries(net, hashes, d) then
      var d :| Carries(net, hashes, d);
      Some(Aggregate(d, AgreeBits(hashes, d), AgreeingSigs(hashes, sigs, d)))
    else
      None
  }

  ghost function MajOf(net: Network, v: VoteSet): (r: Option<Aggregate>)
    requires Shaped(v, net.Size())
  {
    MajResponse(net, v.hashes, v.oracleSigs)
  }

  /** A digest carries a round with more than two thirds of the power behind it, or everyone. */
  lemma CarriesMeans(net: Network, hashes: seq<Option<Bytes>>, d: Bytes)
    requires |hashes| == net.Size() && PositivePowers(net.validators)
    ensures Carries(net, hashes, d) <==>
            && Some(d) in hashes
            && match net.threshold
               case Maj23 => 3 * DigestPower(net, hashes, d) > 2 * TotalPower(net.validators)
               case All => forall i | 0 <= i < |hashes| :: hashes[i] == Some(d)
  {
    Maj23IsTwoThirds(DigestPower(net, hashes, d), net.validators);
    AllIsEveryone(net.validators, VotersFor(hashes, d));
    assert forall i | 0 <= i < |hashes| :: VotersFor(hashes, d)[i] == (hashes[i] == Some(d));
  }

  /** At most one digest can carry a round. */
  lemma OnlyOneCarries(net: Network, hashes: seq<Option<Bytes>>, d: Bytes, e: Bytes)
    requires |hashes| == net.Size() && PositivePowers(net.validators)
    requires Carries(net, hashes, d) && Carries(net, hashes, e)
    ensures d == e
  {
    if d != e {
      var a, b := VotersFor(hashes, d), VotersFor(hashes, e);
      var i :| 0 <= i < |hashes| && hashes[i] == Some(d);
      PowerAtLeast(net.validators, a, i, net.Size());
      PowerAtMostTotal(net.validators, a, net.Size());
      PowerCongruent(net.validators, Both(a, b), seq(net.Size(), _ => false), net.Size());
      NoMarksNoPower(net.validators, net.Size());
      QuorumsOverlap(net.threshold, net.validators, a, b);
    }
  }

  /**
   * The running-maximum tally over one pass: it finds the digest that carries the round, if any.
   */
  method ToMajResponse(net: Network, hashes: seq<Option<Bytes>>, oracleSigs: seq<Option<Bytes>>)
    returns (r: Option<Aggregate>)
    requires |hashes| == |oracleSigs| == net.Size() && PositivePowers(net.validators)
    ensures r == MajResponse(net, hashes, oracleSigs)
  {
    var totals, best, bestPower := CountVotes(net, hashes);
    var agree, sigs := AgreeingSlots(hashes, oracleSigs, if best.Some? then best.value else []);
    r := None;
    if best.Some? {
      if Reached(net.threshold, bestPower, net.validators) {
        r := Some(Aggregate(best.value, agree, sigs));
        assert TotalOf(totals, best.value) == Tallied(net.validators, hashes, best.value, net.Size());
        assert Carries(net, hashes, best.value);
        OnlyOneCarries(net, hashes, best.value, MajResponse(net, hashes, oracleSigs).value.hash);
      }
    }
    if r.None? {
      NobodyCarries(net, hashes, totals, best, bestPower);
    }
  }

  /** Power of the votes for `d` among the first `k` slots. */
  function Tallied(vals: seq<Validator>, hashes: seq<Option<Bytes>>, d: Bytes, k: nat): (p: nat)
    requires k <= |vals| && k <= |hashes|
  {
    Power(vals, VotersFor(hashes, d), k)
  }

  function TotalOf(totals: map<Bytes, int>, d: Bytes): int {
    if d in totals then totals[d] else 0
  }

  /** The first pass: the total of every digest, and the highest of them. */
  method CountVotes(net: Network, hashes: seq<Option<Bytes>>)
    returns (totals: map<Bytes, int>, best: Option<Bytes>, bestPower: int)
    requires |hashes| == net.Size()
    ensures forall d :: TotalOf(totals, d) == Tallied(net.validators, hashes, d, net.Size())
    ensures forall d | d in totals :: totals[d] <= bestPower
    ensures best.Some? ==> best.value in totals && bestPower == totals[best.value] && Some(best.value) in hashes
    ensures best.None? ==> totals == map[]
  {
    totals, best, bestPower := map[], None, -1;
    for i := 0 to |hashes|
      invariant forall d :: TotalOf(totals, d) == Tallied(net.validators, hashes, d, i)
      invariant forall d | d in totals :: totals[d] <= bestPower
      invariant best.Some? ==> best.value in totals && bestPower == totals[best.value] && Some(best.value) in hashes
      invariant best.None? ==> bestPower == -1 && totals == map[]
    {
      ghost var was := totals;
      if hashes[i].Some? {
        var d := hashes[i].value;
        totals := totals[d := TotalOf(totals, d) + net.validators[i].power];
        if bestPower < totals[d] {
          bestPower, best := totals[d], Some(d);
        }
      }
      forall d
        ensures TotalOf(totals, d) == Tallied(net.validators, hashes, d, i + 1)
      {
        assert TotalOf(was, d) == Tallied(net.validators, hashes, d, i);
      }
    }
  }

  /** The second pass: mark the slots that hold the winning digest, and collect their signatures. */
  method AgreeingSlots(hashes: seq<Option<Bytes>>, oracleSigs: seq<Option<Bytes>>, d: Bytes)
    returns (agree: seq<bool>, sigs: seq<Option<Bytes>>)
    requires |hashes| == |oracleSigs|
    ensures agree == AgreeBits(hashes, d) && sigs == AgreeingSigs(hashes, oracleSigs, d)
  {
    agree, sigs := seq(|hashes|, _ => false), seq(|hashes|, _ => None);
    for i := 0 to |hashes|
      invariant |agree| == |sigs| == |hashes|
      invariant forall j | 0 <= j < i :: agree[j] == BytesEqual(d, hashes[j])
      invariant forall j | 0 <= j < i :: sigs[j] == if BytesEqual(d, hashes[j]) then oracleSigs[j] else None
      invariant forall j | i <= j < |hashes| :: !agree[j] && sigs[j] == None
    {
      if BytesEqual(d, hashes[i]) {
        agree, sigs := agree[i := true], sigs[i := oracleSigs[i]];
      }
    }
  }

  /** If the best total misses the threshold, so does every other. */
  lemma NobodyCarries(
    net: Network, hashes: seq<Option<Bytes>>, totals: map<Bytes, int>, best: Option<Bytes>, bestPower: int)
    requires |hashes| == net.Size() && PositivePowers(net.validators)
    requires forall d :: TotalOf(totals, d) == Tallied(net.validators, hashes, d, net.Size())
    requires forall d | d in totals :: totals[d] <= bestPower
    requires best.Some? ==> best.value in totals && bestPower == totals[best.value]
    requires best.None? ==> totals == map[]
    requires best.Some? ==> !Reached(net.threshold, bestPower, net.validators)
    ensures !exists d :: Carries(net, hashes, d)
  {
    forall d | Carries(net, hashes, d)
      ensures false
    {
      var i :| 0 <= i < |hashes| && hashes[i] == Some(d);
      PowerAtLeast(net.validators, VotersFor(hashes, d), i, net.Size());
      assert TotalOf(totals, d) == Tallied(net.validators, hashes, d, net.Size());
      assert TotalOf(totals, best.value) == Tallied(net.validators, hashes, best.value, net.Size());
      PowerAtMostTotal(net.validators, VotersFor(hashes, best.value), net.Size());
    }
  }

  /** A round that some digest carries has converged. */
  lemma CarriedImpliesConverged(net: Network, v: VoteSet)
    requires IsValid(net, v) && MajOf(net, v).Some?
    ensures HasConverged(net, v)
  {
    var d := MajOf(net, v).value.hash;
    forall i | 0 <= i < net.Size()
      ensures VotersFor(v.hashes, d)[i] ==> v.voteBits[i]
    {
      assert ResponseConsistentAt(v, i) && SlotValid(net, v, i);
    }
    PowerMonotone(net.validators, VotersFor(v.hashes, d), v.voteBits, net.Size());
    PowerAtMostTotal(net.validators, v.voteBits, net.Size());
  }

  /** One vote converges a round exactly when it carries it. */
  lemma SingleVoteCarries(net: Network, v: VoteSet, i: nat, hash: Bytes)
    requires IsValid(net, v) && i < net.Size() && PositivePowers(net.validators)
    requires Votes(v).Keys == {i} && v.hashes[i] == Some(hash)
    ensures MajOf(net, v).Some? <==> HasConverged(net, v)
    ensures MajOf(net, v).Some? ==> MajOf(net, v).value.hash == hash
  {
    forall j | 0 <= j < net.Size()
      ensures v.hashes[j].Some? <==> j == i
    {
      assert ResponseConsistentAt(v, j) && SlotValid(net, v, j);
      assert j in Votes(v).Keys <==> v.voteBits[j];
    }
    forall j | 0 <= j < net.Size()
      ensures VotersFor(v.hashes, hash)[j] == v.voteBits[j]
    {
      assert j in Votes(v).Keys <==> v.voteBits[j];
    }
    PowerCongruent(net.validators, VotersFor(v.hashes, hash), v.voteBits, net.Size());
    if HasConverged(net, v) {
      assert Carries(net, v.hashes, hash);
      OnlyOneCarries(net, v.hashes, hash, MajOf(net, v).value.hash);
    }
    if MajOf(net, v).Some? {
      CarriedImpliesConverged(net, v);
    }
  }

  /**
   * The agreeing slots are exactly the voters of the winning digest, unless that digest is the empty
   * string and someone has not voted: an empty slot then compares equal to it.
   */
  lemma AgreeBitsAreVoters(net: Network, v: VoteSet)
    requires Shaped(v, net.Size()) && PositivePowers(net.validators) && MajOf(net, v).Some?
    ensures var agg := MajOf(net, v).value;
      agg.agreeBits == VotersFor(v.hashes, agg.hash) <==> !Carries(net, v.hashes, []) || None !in v.hashes
  {
    var agg := MajOf(net, v).value;
    var voters := VotersFor(v.hashes, agg.hash);
    if Carries(net, v.hashes, []) {
      OnlyOneCarries(net, v.hashes, agg.hash, []);
    }
    if agg.hash == [] && None in v.hashes {
      var i :| 0 <= i < |v.hashes| && v.hashes[i] == None;
      assert agg.agreeBits[i] && !voters[i];
    } else {
      assert forall i | 0 <= i < |voters| :: agg.agreeBits[i] == voters[i];
    }
  }

  /** Such a voteset exists: of two validators, the one with three quarters of the power votes for the empty string. */
  lemma EmptyDigestWins() returns (net: Network, v: VoteSet)
    ensures PositivePowers(net.validators) && IsValid(net, v)
    ensures Carries(net, v.hashes, []) && None in v.hashes
    ensures MajOf(net, v).Some? && MajOf(net, v).value.agreeBits != VotersFor(v.hashes, [])
  {
    var key: Bytes := [];
    net := Network("c", [Validator([], key, 3), Validator([], key, 1)], [], {"f"}, Maj23, _ => [], (_, _, _) => true);
    var sign := (b: Ballot) => Some(key);
    NewVoteSetValid(net, 1, "f", [], Some(key), 0, sign);
    v := NewVoteSet(net, 1, "f", [], Some(key), 0, sign).value;
    TwoValidators(net.validators);
    SingleVoteCarries(net, v, 0, []);
    assert v.hashes[1] == None;
    AgreeBitsAreVoters(net, v);
  }

  lemma TwoValidators(vals: seq<Validator>)
    requires |vals| == 2
    ensures TotalPower(vals) == vals[0].power + vals[1].power
  {
    assert Total(vals, 0) == 0;
    assert Total(vals, 1) == Total(vals, 0) + vals[0].power;
    assert Total(vals, 2) == Total(vals, 1) + vals[1].power;
  }

  /** The signatures handed on are those of the digest's voters, each at its own position. */
  lemma SignaturesFromVoters(net: Network, v: VoteSet, i: nat)
    requires IsValid(net, v) && MajOf(net, v).Some? && i < net.Size()
    ensures var agg := MajOf(net, v).value;
      && (agg.oracleSigs[i].Some? <==> v.hashes[i] == Some(agg.hash))
      && agg.oracleSigs[i] == if v.hashes[i] == Some(agg.hash) then v.oracleSigs[i] else None
  {
    assert ResponseConsistentAt(v, i);
  }

  /*** Choosing the submitter ***/

  /** Position of validator `own` among the agreeing ones, -1 when it is not one of them. */
  method AgreeIndex(agg: Aggregate, own: int) returns (index: int)
    ensures index == AgreeRank(agg, own)
  {
    index := -1;
    if !(0 <= own < |agg.agreeBits| && agg.agreeBits[own]) {
      return;
    }
    for i := 0 to own + 1
      invariant index == Count(agg.agreeBits, i) - 1
    {
      if agg.agreeBits[i] {
        index := index + 1;
      }
    }
  }

  function AgreeRank(agg: Aggregate, own: int): int {
    if 0 <= own < |agg.agreeBits| && agg.agreeBits[own] then Count(agg.agreeBits, own) else -1
  }

  method NumberOfAgreeVotes(agg: Aggregate) returns (n: nat)
    ensures n == AgreeCount(agg)
  {
    n := 0;
    for i := 0 to |agg.agreeBits|
      invariant n == Count(agg.agreeBits, i)
    {
      if agg.agreeBits[i] {
        n := n + 1;
      }
    }
  }

  function AgreeCount(agg: Aggregate): nat {
    Count(agg.agreeBits, |agg.agreeBits|)
  }

  /** Validator `own` is the one to submit the round `nonce`. */
  predicate Elected(agg: Aggregate, own: int, nonce: nat)
    requires AgreeCount(agg) > 0
  {
    AgreeRank(agg, own) == nonce % AgreeCount(agg)
  }

  lemma {:induction false} NthMark(marks: seq<bool>, r: nat, k: nat) returns (i: nat)
    requires k <= |marks| && r < Count(marks, k)
    ensures i < k && marks[i] && Count(marks, i) == r
  {
    if Count(marks, k - 1) == r {
      i := k - 1;
    } else {
      i := NthMark(marks, r, k - 1);
    }
  }

  lemma {:induction false} CountBelowMark(marks: seq<bool>, i: nat, k: nat)
    requires i < k <= |marks| && marks[i]
    ensures Count(marks, i) < Count(marks, k)
  {
    if i < k - 1 { CountBelowMark(marks, i, k - 1); }
  }

  ghost predicate RankTaken(agg: Aggregate, r: int) {
    exists i :: AgreeRank(agg, i) == r
  }

  /** Ranking the agreeing validators is a bijection onto 0 .. their number, and keeps their order. */
  lemma AgreeRankBijection(agg: Aggregate)
    ensures forall i | AgreeRank(agg, i) != -1 :: 0 <= AgreeRank(agg, i) < AgreeCount(agg)
    ensures forall i, j | AgreeRank(agg, i) == AgreeRank(agg, j) != -1 :: i == j
    ensures forall r | 0 <= r < AgreeCount(agg) :: RankTaken(agg, r)
    ensures forall i, j | i < j && AgreeRank(agg, i) != -1 && AgreeRank(agg, j) != -1 ::
              AgreeRank(agg, i) < AgreeRank(agg, j)
  {
    var marks := agg.agreeBits;
    forall i | AgreeRank(agg, i) != -1
      ensures 0 <= AgreeRank(agg, i) < AgreeCount(agg)
    {
      CountBelowMark(marks, i, |marks|);
    }
    forall i, j | i < j && AgreeRank(agg, i) != -1 && AgreeRank(agg, j) != -1
      ensures AgreeRank(agg, i) < AgreeRank(agg, j)
    {
      CountBelowMark(marks, i, j);
    }
    forall r | 0 <= r < AgreeCount(agg)
      ensures RankTaken(agg, r)
    {
      var i := NthMark(marks, r, |marks|);
      assert AgreeRank(agg, i) == r;
    }
  }

  /** Exactly one agreeing validator is elected in each round. */
  lemma OneSubmitter(agg: Aggregate, nonce: nat)
    requires AgreeCount(agg) > 0
    ensures exists i :: 0 <= i < |agg.agreeBits| && agg.agreeBits[i] && Elected(agg, i, nonce)
    ensures forall i, j | Elected(agg, i, nonce) && Elected(agg, j, nonce) :: i == j
  {
    AgreeRankBijection(agg);
    assert RankTaken(agg, nonce % AgreeCount(agg));
    var i :| AgreeRank(agg, i) == nonce % AgreeCount(agg);
    assert Elected(agg, i, nonce);
  }

  /** The nonce at which the validator of a rank has its turn for the q-th time, with n of them taking turns. */
  function Turn(n: nat, rank: nat, q: nat): nat { q * n + rank }

  ghost predicate HasTurn(n: nat, rank: nat, nonce: nat) {
    exists q: nat :: nonce == Turn(n, rank, q)
  }

  lemma TurnIsRemainder(n: nat, rank: nat, nonce: nat)
    requires rank < n
    ensures HasTurn(n, rank, nonce) <==> nonce % n == rank
  {
    if HasTurn(n, rank, nonce) {
      var q: nat :| nonce == Turn(n, rank, q);
      RemainderOf(q, n, rank);
    }
    if nonce % n == rank {
      assert nonce == Turn(n, rank, nonce / n);
    }
  }

  /** Turns go round: rank 0 at nonce 0, then the next, and from the last one back to rank 0. */
  lemma TurnsGoRound(agg: Aggregate, own: int, nonce: nat)
    requires AgreeCount(agg) > 0
    ensures Elected(agg, own, nonce) <==>
            AgreeRank(agg, own) != -1 && HasTurn(AgreeCount(agg), AgreeRank(agg, own), nonce)
  {
    AgreeRankBijection(agg);
    if AgreeRank(agg, own) != -1 { TurnIsRemainder(AgreeCount(agg), AgreeRank(agg, own), nonce); }
  }

  /*** Agreement ***/

  /** Two ballots of validator `i` verify, for one round of the cluster and two different digests. */
  predicate DoubleSigned(net: Network, v: VoteSet, w: VoteSet, i: nat)
    requires Shaped(v, net.Size()) && Shaped(w, net.Size()) && i < net.Size()
  {
    var b, c := BallotAt(v, i), BallotAt(w, i);
    && v.voteBits[i] && w.voteBits[i]
    && net.verify(net.validators[i].pubKey, b, v.signatures[i])
    && net.verify(net.validators[i].pubKey, c, w.signatures[i])
    && b.address == c.address == net.validators[i].address == net.addressOf(net.validators[i].pubKey)
    && b.chainId == c.chainId == net.chainId && b.validatorsHash == c.validatorsHash == net.validatorsHash
    && b.nonce == c.nonce && b.fnId == c.fnId && b.hash != c.hash
  }

  function DoubleSigners(net: Network, v: VoteSet, w: VoteSet): (r: seq<bool>)
    requires Shaped(v, net.Size()) && Shaped(w, net.Size())
    ensures |r| == net.Size()
  {
    seq(net.Size(), i requires 0 <= i < net.Size() => DoubleSigned(net, v, w, i))
  }

  /** The two votesets carry the same digest, or enough validators signed twice. */
  ghost predicate AgreeOrAccuse(net: Network, v: VoteSet, w: VoteSet)
    requires Shaped(v, net.Size()) && Shaped(w, net.Size()) && MajOf(net, v).Some? && MajOf(net, w).Some?
  {
    var doublePower := Power(net.validators, DoubleSigners(net, v, w), net.Size());
    || MajOf(net, v).value.hash == MajOf(net, w).value.hash
    || (net.threshold == Maj23 && 3 * doublePower > TotalPower(net.validators))
    || (net.threshold == All && doublePower == TotalPower(net.validators))
  }

  /**
   * Accountable agreement: two valid votesets of one round carry the same digest, or validators with
   * more than a third of the power (with all of it, when everyone must sign) signed two different votes.
   */
  lemma AccountableAgreement(net: Network, v: VoteSet, w: VoteSet)
    requires IsValid(net, v) && IsValid(net, w)
    requires v.nonce == w.nonce && v.fnId == w.fnId
    requires MajOf(net, v).Some? && MajOf(net, w).Some?
    ensures AgreeOrAccuse(net, v, w)
  {
    var d, e := MajOf(net, v).value.hash, MajOf(net, w).value.hash;
    if d != e {
      var a, b := VotersFor(v.hashes, d), VotersFor(w.hashes, e);
      QuorumsOverlap(net.threshold, net.validators, a, b);
      forall i | 0 <= i < net.Size()
        ensures Both(a, b)[i] ==> DoubleSigners(net, v, w)[i]
      {
        assert ResponseConsistentAt(v, i) && ResponseConsistentAt(w, i);
        assert SlotValid(net, v, i) && SlotValid(net, w, i);
      }
      PowerMonotone(net.validators, Both(a, b), DoubleSigners(net, v, w), net.Size());
      PowerAtMostTotal(net.validators, DoubleSigners(net, v, w), net.Size());
    }
  }
}
