/**
 * The contents of a voteset, what makes one valid, and what its operations do to those contents.
 * The class in `FnVoteSet.dfy` carries the operations out in place.
 */
module VoteSets {
  import opened Prelude
  import opened Validators

  type FnId = string

  /** What one validator signs: its own vote, and the round the vote belongs to. */
  datatype Ballot = Ballot(
    nonce: int64, chainId: string, validatorsHash: Bytes, address: Bytes,
    fnId: FnId, hash: Option<Bytes>, oracleSig: Option<Bytes>)

  /** Everything the nodes of one cluster agree on. `None` in an array of digests stands for nil. */
  datatype Network = Network(
    chainId: string,
    validators: seq<Validator>,
    validatorsHash: Bytes,
    registry: set<FnId>,
    threshold: Threshold,
    addressOf: Bytes -> Bytes,
    verify: (Bytes, Ballot, Bytes) -> bool)
  {
    function Size(): nat { |validators| }
  }

  datatype VoteSet = VoteSet(
    nonce: int64,
    validatorsHash: Bytes,
    chainId: string,
    power: int,
    voteBits: seq<bool>,
    fnId: FnId,
    hashes: seq<Option<Bytes>>,
    respBits: seq<bool>,
    oracleSigs: seq<Option<Bytes>>,
    signatures: seq<Bytes>,
    addresses: seq<Bytes>)

  /** A cast vote, as everyone else will see it. */
  datatype Vote = Vote(hash: Option<Bytes>, oracleSig: Option<Bytes>, signature: Bytes)

  function BallotAt(v: VoteSet, i: nat): Ballot
    requires i < |v.addresses| && i < |v.hashes| && i < |v.oracleSigs|
  {
    Ballot(v.nonce, v.chainId, v.validatorsHash, v.addresses[i], v.fnId, v.hashes[i], v.oracleSigs[i])
  }

  /** All arrays of the voteset have one slot for each of `n` validators. */
  predicate Shaped(v: VoteSet, n: nat) {
    |v.voteBits| == |v.hashes| == |v.respBits| == |v.oracleSigs| == |v.signatures| == |v.addresses| == n
  }

  predicate ResponseConsistentAt(v: VoteSet, i: nat)
    requires i < |v.hashes| && i < |v.respBits| && i < |v.oracleSigs|
  {
    v.oracleSigs[i].Some? == v.respBits[i] == v.hashes[i].Some?
  }

  predicate SignedAt(net: Network, v: VoteSet, i: nat)
    requires Shaped(v, net.Size()) && i < net.Size()
  {
    && net.addressOf(net.validators[i].pubKey) == v.addresses[i]
    && net.verify(net.validators[i].pubKey, BallotAt(v, i), v.signatures[i])
  }

  predicate SlotValid(net: Network, v: VoteSet, i: nat)
    requires Shaped(v, net.Size()) && i < net.Size()
  {
    && v.addresses[i] == net.validators[i].address
    && v.voteBits[i] == v.respBits[i]
    && (v.voteBits[i] ==> SignedAt(net, v, i))
  }

  /** The voteset belongs to this cluster and has the right number of slots. */
  predicate HeaderValid(net: Network, v: VoteSet) {
    && Shaped(v, net.Size())
    && v.fnId in net.registry
    && v.chainId == net.chainId
    && v.validatorsHash == net.validatorsHash
  }

  ghost predicate IsValid(net: Network, v: VoteSet) {
    && HeaderValid(net, v)
    && (forall i | 0 <= i < net.Size() :: ResponseConsistentAt(v, i))
    && (forall i | 0 <= i < net.Size() :: SlotValid(net, v, i))
    && v.power == Power(net.validators, v.voteBits, net.Size())
  }

  /** A vote may lack the signature of the function, as when the function answers without one. */
  predicate ResponseSoundAt(v: VoteSet, i: nat)
    requires i < |v.hashes| && i < |v.respBits| && i < |v.oracleSigs|
  {
    v.hashes[i].Some? == v.respBits[i] && (v.oracleSigs[i].Some? ==> v.respBits[i])
  }

  /** What every voteset a node stores is: valid, but for votes without a signature of the function. */
  ghost predicate IsSound(net: Network, v: VoteSet) {
    && HeaderValid(net, v)
    && (forall i | 0 <= i < net.Size() :: ResponseSoundAt(v, i))
    && (forall i | 0 <= i < net.Size() :: SlotValid(net, v, i))
    && v.power == Power(net.validators, v.voteBits, net.Size())
  }

  /** Every vote comes with a signature of the function. */
  predicate AllSigned(v: VoteSet)
    requires Shaped(v, |v.voteBits|)
  {
    forall i | 0 <= i < |v.voteBits| && v.voteBits[i] :: v.oracleSigs[i].Some?
  }

  lemma ValidIsSound(net: Network, v: VoteSet)
    ensures IsValid(net, v) ==> IsSound(net, v) && AllSigned(v)
    ensures IsSound(net, v) && AllSigned(v) ==> IsValid(net, v)
  {
    if HeaderValid(net, v) && forall i | 0 <= i < net.Size() :: SlotValid(net, v, i) {
      forall i | 0 <= i < net.Size()
        ensures ResponseConsistentAt(v, i) <==> ResponseSoundAt(v, i) && (v.voteBits[i] ==> v.oracleSigs[i].Some?)
      {
        assert SlotValid(net, v, i);
      }
    }
  }

  predicate HasConverged(net: Network, v: VoteSet) {
    Reached(net.threshold, v.power, net.validators)
  }

  /** A voteset has converged when more than two thirds of the power voted, or everyone, whatever they voted for. */
  lemma ConvergedMeans(net: Network, v: VoteSet)
    requires IsSound(net, v) && PositivePowers(net.validators)
    ensures HasConverged(net, v) <==>
            match net.threshold
            case Maj23 => 3 * Power(net.validators, v.voteBits, net.Size()) > 2 * TotalPower(net.validators)
            case All => forall i | 0 <= i < net.Size() :: v.voteBits[i]
  {
    Maj23IsTwoThirds(v.power, net.validators);
    AllIsEveryone(net.validators, v.voteBits);
  }

  function NumberOfVotes(v: VoteSet): nat {
    Count(v.voteBits, |v.voteBits|)
  }

  /** The votes held by a voteset, by validator index. */
  ghost function Votes(v: VoteSet): map<nat, Vote>
    requires Shaped(v, |v.voteBits|)
  {
    map i: nat | i < |v.voteBits| && v.voteBits[i] :: Vote(v.hashes[i], v.oracleSigs[i], v.signatures[i])
  }

  /*** Merging ***/

  /** Two votesets are about the same function, round and validators. */
  predicate SameRound(a: VoteSet, b: VoteSet) {
    && a.nonce == b.nonce
    && a.chainId == b.chainId
    && a.validatorsHash == b.validatorsHash
    && a.fnId == b.fnId
    && |a.hashes| == |b.hashes|
    && |a.respBits| == |b.respBits|
    && |a.oracleSigs| == |b.oracleSigs|
    && |a.signatures| == |b.signatures|
    && a.addresses == b.addresses
  }

  /** `b[i]` where only `b` has something to offer, `a[i]` everywhere else, up to `k`. */
  function Filled<T>(a: seq<T>, b: seq<T>, have: seq<bool>, offered: seq<bool>, k: nat): (r: seq<T>)
    requires |a| == |b| == |have| == |offered| && k <= |a|
    ensures |r| == |a|
    ensures forall i | 0 <= i < |a| :: r[i] == if i < k && !have[i] && offered[i] then b[i] else a[i]
  {
    seq(|a|, i requires 0 <= i < |a| => if i < k && !have[i] && offered[i] then b[i] else a[i])
  }

  lemma FilledStep<T>(a: seq<T>, b: seq<T>, have: seq<bool>, offered: seq<bool>, k: nat)
    requires |a| == |b| == |have| == |offered| && k < |a|
    ensures Filled(a, b, have, offered, k)[k] == a[k]
    ensures Filled(a, b, have, offered, k + 1)
         == if !have[k] && offered[k] then Filled(a, b, have, offered, k)[k := b[k]] else Filled(a, b, have, offered, k)
  {
  }

  function Merged(net: Network, a: VoteSet, b: VoteSet): (r: VoteSet)
    requires Shaped(a, net.Size()) && Shaped(b, net.Size())
  {
    var n := net.Size();
    a.(
    hashes := Filled(a.hashes, b.hashes, a.respBits, b.respBits, n),
    oracleSigs := Filled(a.oracleSigs, b.oracleSigs, a.respBits, b.respBits, n),
    respBits := Either(a.respBits, b.respBits),
    signatures := Filled(a.signatures, b.signatures, a.voteBits, b.voteBits, n),
    voteBits := Either(a.voteBits, b.voteBits),
    power := a.power + Power(net.validators, NewVotes(a.voteBits, b.voteBits), n))
  }

  function NewVotes(have: seq<bool>, offered: seq<bool>): (r: seq<bool>)
    requires |have| == |offered|
    ensures |r| == |have|
    ensures forall i | 0 <= i < |r| :: r[i] == (!have[i] && offered[i])
  {
    seq(|have|, i requires 0 <= i < |have| => !have[i] && offered[i])
  }

  predicate AnyMark(marks: seq<bool>, k: nat)
    requires k <= |marks|
  {
    exists i | 0 <= i < k :: marks[i]
  }

  lemma NewVotesPower(net: Network, a: VoteSet, b: VoteSet)
    requires Shaped(a, net.Size()) && Shaped(b, net.Size())
    ensures Power(net.validators, a.voteBits, net.Size())
          + Power(net.validators, NewVotes(a.voteBits, b.voteBits), net.Size())
         == Power(net.validators, Either(a.voteBits, b.voteBits), net.Size())
  {
    var n := net.Size();
    var added := NewVotes(a.voteBits, b.voteBits);
    PowerOverlap(net.validators, a.voteBits, added, n);
    PowerCongruent(net.validators, Either(a.voteBits, added), Either(a.voteBits, b.voteBits), n);
    PowerCongruent(net.validators, Both(a.voteBits, added), seq(n, _ => false), n);
    NoMarksNoPower(net.validators, n);
  }

  lemma {:induction false} NoMarksNoPower(vals: seq<Validator>, k: nat)
    requires k <= |vals|
    ensures Power(vals, seq(|vals|, _ => false), k) == 0
  {
    if k > 0 { NoMarksNoPower(vals, k - 1); }
  }

  /** Votesets of one round never fail to merge. */
  lemma ValidVoteSetsMerge(net: Network, a: VoteSet, b: VoteSet)
    requires IsSound(net, a) && IsSound(net, b)
    ensures SameRound(a, b) <==> a.nonce == b.nonce && a.fnId == b.fnId
  {
    if a.nonce == b.nonce && a.fnId == b.fnId {
      forall i | 0 <= i < net.Size()
        ensures a.addresses[i] == b.addresses[i]
      {
        assert SlotValid(net, a, i) && SlotValid(net, b, i);
      }
    }
  }

  lemma MergedSlot(net: Network, a: VoteSet, b: VoteSet, i: nat)
    requires IsSound(net, a) && IsSound(net, b) && SameRound(a, b) && i < net.Size()
    ensures ResponseSoundAt(Merged(net, a, b), i) && SlotValid(net, Merged(net, a, b), i)
  {
    var m := Merged(net, a, b);
    assert ResponseSoundAt(a, i) && ResponseSoundAt(b, i);
    assert SlotValid(net, a, i) && SlotValid(net, b, i);
    assert a.voteBits[i] ==> BallotAt(m, i) == BallotAt(a, i);
    assert !a.voteBits[i] && b.voteBits[i] ==> BallotAt(m, i) == BallotAt(b, i);
  }

  lemma MergedVotes(net: Network, a: VoteSet, b: VoteSet)
    requires IsSound(net, a) && IsSound(net, b) && SameRound(a, b)
    ensures Votes(Merged(net, a, b)) == Votes(b) + Votes(a)
  {
    var m := Merged(net, a, b);
    forall i: nat
      ensures i in Votes(m) <==> i in Votes(b) + Votes(a)
      ensures i in Votes(m) ==> Votes(m)[i] == (Votes(b) + Votes(a))[i]
    {
      if i < net.Size() {
        assert SlotValid(net, a, i) && SlotValid(net, b, i);
      }
    }
  }

  /** Merging valid votesets gives a valid voteset, holding the votes of both; ours win where both voted. */
  lemma MergeIsJoin(net: Network, a: VoteSet, b: VoteSet)
    requires IsSound(net, a) && IsSound(net, b) && SameRound(a, b)
    ensures IsSound(net, Merged(net, a, b))
    ensures IsValid(net, a) && IsValid(net, b) ==> IsValid(net, Merged(net, a, b))
    ensures Votes(Merged(net, a, b)) == Votes(b) + Votes(a)
    ensures Merged(net, a, b).power == Power(net.validators, Either(a.voteBits, b.voteBits), net.Size())
    ensures SameRound(Merged(net, a, b), a)
  {
    NewVotesPower(net, a, b);
    MergedVotes(net, a, b);
    forall i | 0 <= i < net.Size()
      ensures ResponseSoundAt(Merged(net, a, b), i) && SlotValid(net, Merged(net, a, b), i)
    {
      MergedSlot(net, a, b, i);
    }
    MergedSigned(net, a, b);
    ValidIsSound(net, a);
    ValidIsSound(net, b);
    ValidIsSound(net, Merged(net, a, b));
  }

  lemma MergedSigned(net: Network, a: VoteSet, b: VoteSet)
    requires IsSound(net, a) && IsSound(net, b) && SameRound(a, b)
    ensures AllSigned(a) && AllSigned(b) ==> AllSigned(Merged(net, a, b))
  {
    var m := Merged(net, a, b);
    forall i | 0 <= i < net.Size() && m.voteBits[i] && AllSigned(a) && AllSigned(b)
      ensures m.oracleSigs[i].Some?
    {
      assert SlotValid(net, a, i) && SlotValid(net, b, i);
    }
  }

  /** A merge changes a voteset exactly when it brings a new vote, and then the voteset has more votes. */
  lemma MergeChanges(net: Network, a: VoteSet, b: VoteSet)
    requires IsSound(net, a) && IsSound(net, b) && SameRound(a, b)
    ensures Merged(net, a, b) == a <==> Votes(b).Keys <= Votes(a).Keys
    ensures Merged(net, a, b) != a ==> NumberOfVotes(a) < NumberOfVotes(Merged(net, a, b))
    ensures HasConverged(net, a) ==> HasConverged(net, Merged(net, a, b))
  {
    var m := Merged(net, a, b);
    if Votes(b).Keys <= Votes(a).Keys {
      MergeNothingNew(net, a, b);
    } else {
      var i :| i in Votes(b).Keys && i !in Votes(a).Keys;
      assert m.voteBits[i] && !a.voteBits[i];
      CountGrows(a.voteBits, m.voteBits, net.Size());
    }
    MergeIsJoin(net, a, b);
    PowerAtMostTotal(net.validators, m.voteBits, net.Size());
  }

  lemma MergeNothingNew(net: Network, a: VoteSet, b: VoteSet)
    requires IsSound(net, a) && IsSound(net, b) && SameRound(a, b)
    requires Votes(b).Keys <= Votes(a).Keys
    ensures Merged(net, a, b) == a
  {
    var m := Merged(net, a, b);
    forall i | 0 <= i < net.Size()
      ensures b.voteBits[i] ==> a.voteBits[i]
      ensures a.respBits[i] == a.voteBits[i] && b.respBits[i] == b.voteBits[i]
    {
      assert SlotValid(net, a, i) && SlotValid(net, b, i);
      assert b.voteBits[i] ==> i in Votes(b).Keys;
    }
    PowerCongruent(net.validators, NewVotes(a.voteBits, b.voteBits), seq(net.Size(), _ => false), net.Size());
    NoMarksNoPower(net.validators, net.Size());
    assert m.hashes == a.hashes && m.oracleSigs == a.oracleSigs && m.signatures == a.signatures;
    assert m.respBits == a.respBits && m.voteBits == a.voteBits;
  }

  /** No validator cast two different votes. */
  ghost predicate NoDoubleVotes(a: VoteSet, b: VoteSet)
    requires Shaped(a, |a.voteBits|) && Shaped(b, |b.voteBits|)
  {
    forall i | i in Votes(a) && i in Votes(b) :: Votes(a)[i] == Votes(b)[i]
  }

  /** Neither voteset hides a different signature where nobody voted; nothing checks those. */
  predicate SameUnusedSignatures(a: VoteSet, b: VoteSet)
    requires |a.voteBits| == |a.signatures| == |b.voteBits| == |b.signatures|
  {
    forall i | 0 <= i < |a.signatures| && !a.voteBits[i] && !b.voteBits[i] :: a.signatures[i] == b.signatures[i]
  }

  /**
   * The order of a merge matters to the votes exactly when some validator voted twice, and to the voteset as a
   * whole also when unused slots hold different signatures.
   */
  lemma MergeCommutes(net: Network, a: VoteSet, b: VoteSet)
    requires IsSound(net, a) && IsSound(net, b) && SameRound(a, b)
    ensures Votes(Merged(net, a, b)) == Votes(Merged(net, b, a)) <==> NoDoubleVotes(a, b)
    ensures Merged(net, a, b) == Merged(net, b, a) <==> NoDoubleVotes(a, b) && SameUnusedSignatures(a, b)
    ensures Merged(net, a, b).power == Merged(net, b, a).power
  {
    MergeIsJoin(net, a, b);
    MergeIsJoin(net, b, a);
    PowerCongruent(net.validators, Either(a.voteBits, b.voteBits), Either(b.voteBits, a.voteBits), net.Size());
    UnionCommutes(Votes(b), Votes(a));
    if NoDoubleVotes(a, b) && SameUnusedSignatures(a, b) {
      forall i | 0 <= i < net.Size()
        ensures SameSlot(Merged(net, a, b), Merged(net, b, a), i)
      {
        MergedSlotCommutes(net, a, b, i);
      }
      SameSlots(Merged(net, a, b), Merged(net, b, a), net.Size());
    }
    if Merged(net, a, b) == Merged(net, b, a) {
      forall i | 0 <= i < net.Size() && !a.voteBits[i] && !b.voteBits[i]
        ensures a.signatures[i] == b.signatures[i]
      {
        assert Merged(net, a, b).signatures[i] == Merged(net, b, a).signatures[i];
      }
    }
  }

  predicate SameSlot(m: VoteSet, w: VoteSet, i: nat)
    requires Shaped(m, |m.voteBits|) && Shaped(w, |m.voteBits|) && i < |m.voteBits|
  {
    && m.voteBits[i] == w.voteBits[i] && m.respBits[i] == w.respBits[i] && m.hashes[i] == w.hashes[i]
    && m.oracleSigs[i] == w.oracleSigs[i] && m.signatures[i] == w.signatures[i] && m.addresses[i] == w.addresses[i]
  }

  lemma SameSlots(m: VoteSet, w: VoteSet, n: nat)
    requires Shaped(m, n) && Shaped(w, n) && SameRound(m, w) && m.power == w.power
    requires forall i | 0 <= i < n :: SameSlot(m, w, i)
    ensures m == w
  {
    forall i | 0 <= i < n
      ensures m.voteBits[i] == w.voteBits[i] && m.respBits[i] == w.respBits[i] && m.hashes[i] == w.hashes[i]
      ensures m.oracleSigs[i] == w.oracleSigs[i] && m.signatures[i] == w.signatures[i]
    {
      assert SameSlot(m, w, i);
    }
    assert m.voteBits == w.voteBits && m.respBits == w.respBits && m.hashes == w.hashes;
    assert m.oracleSigs == w.oracleSigs && m.signatures == w.signatures;
  }

  lemma MergedSlotCommutes(net: Network, a: VoteSet, b: VoteSet, i: nat)
    requires IsSound(net, a) && IsSound(net, b) && SameRound(a, b) && i < net.Size()
    requires NoDoubleVotes(a, b) && SameUnusedSignatures(a, b)
    ensures SameSlot(Merged(net, a, b), Merged(net, b, a), i)
  {
    assert ResponseSoundAt(a, i) && ResponseSoundAt(b, i);
    assert SlotValid(net, a, i) && SlotValid(net, b, i);
    assert i in Votes(a) <==> a.voteBits[i];
    assert i in Votes(b) <==> b.voteBits[i];
  }

  lemma UnionCommutes<K, V>(m: map<K, V>, w: map<K, V>)
    ensures m + w == w + m <==> forall k | k in m && k in w :: m[k] == w[k]
  {
    if m + w == w + m {
      forall k | k in m && k in w
        ensures m[k] == w[k]
      {
        assert (m + w)[k] == w[k] && (w + m)[k] == m[k];
      }
    } else {
      assert (m + w).Keys == (w + m).Keys;
    }
  }

  /** Merging is associative, double votes or not: the earliest vote seen always stays. */
  lemma MergeAssociates(net: Network, a: VoteSet, b: VoteSet, c: VoteSet)
    requires IsSound(net, a) && IsSound(net, b) && IsSound(net, c) && SameRound(a, b) && SameRound(b, c)
    ensures Shaped(Merged(net, a, b), net.Size()) && Shaped(Merged(net, b, c), net.Size())
    ensures Merged(net, Merged(net, a, b), c) == Merged(net, a, Merged(net, b, c))
  {
    MergeIsJoin(net, a, b);
    MergeIsJoin(net, b, c);
    MergeIsJoin(net, Merged(net, a, b), c);
    MergeIsJoin(net, a, Merged(net, b, c));
    FilledAssociates(a.hashes, b.hashes, c.hashes, a.respBits, b.respBits, c.respBits);
    FilledAssociates(a.oracleSigs, b.oracleSigs, c.oracleSigs, a.respBits, b.respBits, c.respBits);
    FilledAssociates(a.signatures, b.signatures, c.signatures, a.voteBits, b.voteBits, c.voteBits);
    EitherAssociates(a.voteBits, b.voteBits, c.voteBits);
    EitherAssociates(a.respBits, b.respBits, c.respBits);
  }

  lemma FilledAssociates<T>(a: seq<T>, b: seq<T>, c: seq<T>, p: seq<bool>, q: seq<bool>, r: seq<bool>)
    requires |a| == |b| == |c| == |p| == |q| == |r|
    ensures Filled(Filled(a, b, p, q, |a|), c, Either(p, q), r, |a|)
         == Filled(a, Filled(b, c, q, r, |a|), p, Either(q, r), |a|)
  {
  }

  lemma EitherAssociates(p: seq<bool>, q: seq<bool>, r: seq<bool>)
    requires |p| == |q| == |r|
    ensures Either(Either(p, q), r) == Either(p, Either(q, r))
  {
  }

  /*** Casting a vote ***/

  /** The steps of adding a vote: what is left behind when one fails is part of the result. */
  function WithResponse(v: VoteSet, hash: Bytes, oracleSig: Option<Bytes>, i: nat): (r: VoteSet)
    requires i < |v.hashes| && i < |v.oracleSigs| && i < |v.respBits|
  {
    v.(oracleSigs := v.oracleSigs[i := oracleSig], hashes := v.hashes[i := Some(hash)],
    respBits := v.respBits[i := true])
  }

  datatype Added = Added(voteSet: VoteSet, ok: bool)

  function VoteAdded(
    net: Network, v: VoteSet, nonce: int64, hash: Bytes, oracleSig: Option<Bytes>, i: nat,
    sign: Ballot -> Option<Bytes>
  ): (r: Added)
    requires Shaped(v, net.Size()) && i < net.Size()
    ensures SameRound(r.voteSet, v)
  {
    if v.nonce != nonce || v.voteBits[i] || v.respBits[i] then
      Added(v, false)
    else
      var w := WithResponse(v, hash, oracleSig, i);
      var s := sign(BallotAt(w, i));
      if s.None? then
        Added(w, false)
      else
        var x := w.(voteBits := w.voteBits[i := true], signatures := w.signatures[i := s.value]);
        if net.validators[i].address != x.addresses[i] then
          Added(x, false)
        else
          Added(x.(power := x.power + net.validators[i].power), true)
  }

  /** The local key produces signatures that verify under the key of validator `i`. */
  ghost predicate SignsFor(net: Network, sign: Ballot -> Option<Bytes>, i: nat)
    requires i < net.Size()
  {
    && net.addressOf(net.validators[i].pubKey) == net.validators[i].address
    && forall b: Ballot :: sign(b).Some? && net.verify(net.validators[i].pubKey, b, sign(b).value)
  }

  /**
   * A vote added to a voteset leaves it valid exactly when it was and the function supplied a signature.
   * (The function's signature is stored unchecked; a nil one leaves the voteset unusable.)
   */
  lemma AddVoteKeepsValid(
    net: Network, v: VoteSet, hash: Bytes, oracleSig: Option<Bytes>, i: nat, sign: Ballot -> Option<Bytes>)
    requires IsSound(net, v) && i < net.Size() && !v.voteBits[i] && SignsFor(net, sign, i)
    ensures VoteAdded(net, v, v.nonce, hash, oracleSig, i, sign).ok
    ensures var r := VoteAdded(net, v, v.nonce, hash, oracleSig, i, sign).voteSet;
      && IsSound(net, r)
      && (IsValid(net, r) <==> IsValid(net, v) && oracleSig.Some?)
      && SameRound(r, v)
      && Votes(r) == Votes(v)[i := Vote(Some(hash), oracleSig, r.signatures[i])]
      && r.power == v.power + net.validators[i].power
      && NumberOfVotes(r) == NumberOfVotes(v) + 1
  {
    assert SlotValid(net, v, i);
    assert ResponseSoundAt(v, i);
    var r := VoteAdded(net, v, v.nonce, hash, oracleSig, i, sign).voteSet;
    PowerAddOne(net.validators, v.voteBits, i, net.Size());
    CountAddOne(v.voteBits, i, net.Size());
    forall j | 0 <= j < net.Size()
      ensures SlotValid(net, r, j) && ResponseSoundAt(r, j)
    {
      assert SlotValid(net, v, j) && ResponseSoundAt(v, j);
      if j != i { assert BallotAt(r, j) == BallotAt(v, j); }
    }
    assert AllSigned(r) <==> AllSigned(v) && oracleSig.Some? by {
      assert forall j | 0 <= j < net.Size() && j != i :: r.voteBits[j] == v.voteBits[j];
      assert forall j | 0 <= j < net.Size() && j != i :: r.oracleSigs[j] == v.oracleSigs[j];
      assert r.voteBits[i] && r.oracleSigs[i] == oracleSig;
    }
    ValidIsSound(net, v);
    ValidIsSound(net, r);
  }

  /** A vote is added exactly if it is for the round and the validator has not voted; else nothing changes. */
  lemma AddVoteSucceeds(
    net: Network, v: VoteSet, nonce: int64, hash: Bytes, oracleSig: Option<Bytes>, i: nat,
    sign: Ballot -> Option<Bytes>)
    requires IsSound(net, v) && i < net.Size() && SignsFor(net, sign, i)
    ensures var r := VoteAdded(net, v, nonce, hash, oracleSig, i, sign);
      && (r.ok <==> v.nonce == nonce && i !in Votes(v))
      && (!r.ok ==> r.voteSet == v)
  {
    assert SlotValid(net, v, i);
  }

  /*** A new voteset ***/

  function EmptyVoteSet(net: Network, nonce: int64, fnId: FnId): (r: VoteSet)
    ensures Shaped(r, net.Size())
  {
    var n := net.Size();
    VoteSet(nonce, net.validatorsHash, net.chainId, 0, seq(n, _ => false), fnId, seq(n, _ => None),
            seq(n, _ => false), seq(n, _ => None), seq(n, _ => []),
            seq(n, i requires 0 <= i < n => net.validators[i].address))
  }

  /** A voteset holding the single signed vote of validator `i`; nothing when it cannot be made. */
  function NewVoteSet(
    net: Network, nonce: int64, fnId: FnId, hash: Bytes, oracleSig: Option<Bytes>, i: nat,
    sign: Ballot -> Option<Bytes>
  ): (r: Option<VoteSet>)
    requires i < net.Size()
    ensures r.Some? ==> Shaped(r.value, net.Size()) && r.value.fnId == fnId && r.value.nonce == nonce
  {
    var w := WithResponse(EmptyVoteSet(net, nonce, fnId), hash, oracleSig, i);
    if oracleSig.None? || net.validators[i].power == 0 then
      None
    else
      var s := sign(BallotAt(w, i));
      if s.None? then
        None
      else
        Some(w.(voteBits := w.voteBits[i := true], power := net.validators[i].power,
             signatures := w.signatures[i := s.value]))
  }

  lemma EmptyVoteSetValid(net: Network, nonce: int64, fnId: FnId)
    requires fnId in net.registry
    ensures IsValid(net, EmptyVoteSet(net, nonce, fnId))
  {
    PowerCongruent(net.validators, EmptyVoteSet(net, nonce, fnId).voteBits, seq(net.Size(), _ => false), net.Size());
    NoMarksNoPower(net.validators, net.Size());
  }

  /** A new voteset is an empty one with one vote added: valid, and worth that validator's power. */
  lemma NewVoteSetValid(
    net: Network, nonce: int64, fnId: FnId, hash: Bytes, oracleSig: Option<Bytes>, i: nat,
    sign: Ballot -> Option<Bytes>)
    requires PositivePowers(net.validators) && fnId in net.registry && i < net.Size() && SignsFor(net, sign, i)
    ensures NewVoteSet(net, nonce, fnId, hash, oracleSig, i, sign).Some? <==> oracleSig.Some?
    ensures oracleSig.Some? ==>
              var v := NewVoteSet(net, nonce, fnId, hash, oracleSig, i, sign).value;
              && IsValid(net, v) && v.nonce == nonce && v.fnId == fnId
              && v.power == net.validators[i].power
              && Votes(v) == map[i := Vote(Some(hash), oracleSig, v.signatures[i])]
  {
    EmptyVoteSetValid(net, nonce, fnId);
    ValidIsSound(net, EmptyVoteSet(net, nonce, fnId));
    AddVoteKeepsValid(net, EmptyVoteSet(net, nonce, fnId), hash, oracleSig, i, sign);
    assert Votes(EmptyVoteSet(net, nonce, fnId)) == map[];
    assert BallotAt(WithResponse(EmptyVoteSet(net, nonce, fnId), hash, oracleSig, i), i).address
      == net.validators[i].address;
    if oracleSig.Some? {
      assert NewVoteSet(net, nonce, fnId, hash, oracleSig, i, sign).value
          == VoteAdded(net, EmptyVoteSet(net, nonce, fnId), nonce, hash, oracleSig, i, sign).voteSet;
    }
  }
}
