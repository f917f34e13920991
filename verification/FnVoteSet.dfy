/** The voteset a validator keeps for the current round of one function, updated in place. */
module FnVoteSets {
  import opened Prelude
  import opened Validators
  import opened VoteSets
  import opened Tally

  class FnVoteSet {
    const nonce: int64
    const validatorsHash: Bytes
    const chainId: string
    const fnId: FnId
    var totalVotingPower: int
    const voteBits: array<bool>
    const hashes: array<Option<Bytes>>
    const respBits: array<bool>
    const oracleSigs: array<Option<Bytes>>
    const signatures: array<Bytes>
    const addresses: array<Bytes>

    ghost function Footprint(): set<object> {
      {this, voteBits, hashes, respBits, oracleSigs, signatures, addresses}
    }

    ghost predicate Separate() {
      voteBits != respBits && hashes != oracleSigs && signatures != addresses
    }

    /** The contents of the voteset. */
    function View(): VoteSet
      reads Footprint()
    {
      VoteSet(nonce, validatorsHash, chainId, totalVotingPower, voteBits[..], fnId, hashes[..], respBits[..],
              oracleSigs[..], signatures[..], addresses[..])
    }

    /** Decode a received voteset. */
    constructor (v: VoteSet)
      ensures Separate() && View() == v && fresh(Footprint())
    {
      nonce, validatorsHash, chainId, fnId := v.nonce, v.validatorsHash, v.chainId, v.fnId;
      totalVotingPower := v.power;
      voteBits := new bool[|v.voteBits|](i requires 0 <= i < |v.voteBits| => v.voteBits[i]);
      hashes := new Option<Bytes>[|v.hashes|](i requires 0 <= i < |v.hashes| => v.hashes[i]);
      respBits := new bool[|v.respBits|](i requires 0 <= i < |v.respBits| => v.respBits[i]);
      oracleSigs := new Option<Bytes>[|v.oracleSigs|](i requires 0 <= i < |v.oracleSigs| => v.oracleSigs[i]);
      signatures := new Bytes[|v.signatures|](i requires 0 <= i < |v.signatures| => v.signatures[i]);
      addresses := new Bytes[|v.addresses|](i requires 0 <= i < |v.addresses| => v.addresses[i]);
    }

    /** A voteset with the signed vote of a single validator, or null when it cannot be made. */
    static method NewVoteSet(
      net: Network, nonce: int64, fnId: FnId, hash: Bytes, oracleSig: Option<Bytes>, i: nat,
      sign: Ballot -> Option<Bytes>
    ) returns (r: FnVoteSet?)
      requires i < net.Size()
      ensures (r == null) == VoteSets.NewVoteSet(net, nonce, fnId, hash, oracleSig, i, sign).None?
      ensures r != null ==> r.Separate() && fresh(r.Footprint())
      ensures r != null ==> r.View() == VoteSets.NewVoteSet(net, nonce, fnId, hash, oracleSig, i, sign).value
    {
      if oracleSig.None? || net.validators[i].power == 0 {
        return null;
      }
      ghost var response := WithResponse(EmptyVoteSet(net, nonce, fnId), hash, oracleSig, i);
      r := new FnVoteSet(EmptyVoteSet(net, nonce, fnId));
      r.respBits[i], r.hashes[i], r.oracleSigs[i] := true, Some(hash), oracleSig;
      assert r.View() == response;
      r.totalVotingPower := net.validators[i].power;
      r.voteBits[i] := true;
      var signature := sign(BallotAt(r.View(), i));
      if signature.None? {
        return null;
      }
      r.signatures[i] := signature.value;
    }

    /** The first check made on a voteset received from a peer. */
    method IsValid(net: Network) returns (ok: bool)
      requires Separate()
      ensures ok <==> VoteSets.IsValid(net, View())
    {
      if !HeaderValid(net, View()) {
        return false;
      }
      for i := 0 to net.Size()
        invariant forall j | 0 <= j < i :: ResponseConsistentAt(View(), j)
      {
        if !ResponseConsistentAt(View(), i) {
          return false;
        }
      }
      var calculated := 0;
      for i := 0 to net.Size()
        invariant forall j | 0 <= j < i :: SlotValid(net, View(), j)
        invariant calculated == Power(net.validators, View().voteBits, i)
      {
        if !SlotValid(net, View(), i) {
          return false;
        }
        if voteBits[i] {
          calculated := calculated + net.validators[i].power;
        }
      }
      ok := totalVotingPower == calculated;
    }

    /** Take over the votes of another voteset of the same round that this one does not have yet. */
    method Merge(net: Network, other: FnVoteSet) returns (changed: bool, ok: bool)
      requires Separate() && Footprint() !! other.Footprint()
      requires SameRound(View(), other.View()) ==> Shaped(View(), net.Size()) && Shaped(other.View(), net.Size())
      modifies this, voteBits, hashes, respBits, oracleSigs, signatures
      ensures ok == SameRound(old(View()), other.View())
      ensures !ok ==> View() == old(View()) && !changed
      ensures ok ==> View() == Merged(net, old(View()), other.View())
      ensures ok ==> (changed <==> || AnyMark(NewVotes(old(respBits[..]), other.respBits[..]), net.Size())
                                   || AnyMark(NewVotes(old(voteBits[..]), other.voteBits[..]), net.Size()))
    {
      if !SameRound(View(), other.View()) {
        return false, false;
      }
      ghost var was := View();
      var newAnswers := MergeResponse(other);
      var newVotes := MergeVotes(net, other);
      changed, ok := newAnswers || newVotes, true;
      assert View() == Merged(net, was, other.View());
    }

    /** Take over the signed votes of another voteset that this one does not have yet. */
    method MergeVotes(net: Network, other: FnVoteSet) returns (changed: bool)
      requires voteBits != other.voteBits && signatures != other.signatures
      requires voteBits.Length == signatures.Length == net.Size()
      requires other.voteBits.Length == other.signatures.Length == net.Size()
      modifies this`totalVotingPower, voteBits, signatures
      ensures signatures[..] ==
              Filled(old(signatures[..]), other.signatures[..], old(voteBits[..]), other.voteBits[..], net.Size())
      ensures voteBits[..] == Either(old(voteBits[..]), other.voteBits[..])
      ensures totalVotingPower ==
              old(totalVotingPower) + Power(net.validators, NewVotes(old(voteBits[..]), other.voteBits[..]), net.Size())
      ensures changed <==> AnyMark(NewVotes(old(voteBits[..]), other.voteBits[..]), net.Size())
    {
      changed := false;
      ghost var had, theirs, sigs, theirSigs := voteBits[..], other.voteBits[..], signatures[..], other.signatures[..];
      ghost var added := NewVotes(had, theirs);
      for i := 0 to net.Size()
        invariant voteBits[..] == Filled(had, theirs, had, theirs, i)
        invariant signatures[..] == Filled(sigs, theirSigs, had, theirs, i)
        invariant totalVotingPower == old(totalVotingPower) + Power(net.validators, added, i)
        invariant changed == AnyMark(added, i)
      {
        FilledStep(had, theirs, had, theirs, i);
        FilledStep(sigs, theirSigs, had, theirs, i);
        assert voteBits[i] == voteBits[..][i];
        assert added[i] == (!voteBits[i] && other.voteBits[i]);
        if voteBits[i] || !other.voteBits[i] {
          continue;
        }
        changed := true;
        TakeVote(other.signatures[i], net.validators[i].power, i);
      }
    }

    method TakeVote(signature: Bytes, power: nat, i: nat)
      requires i < voteBits.Length == signatures.Length
      modifies this`totalVotingPower, voteBits, signatures
      ensures voteBits[..] == old(voteBits[..])[i := true]
      ensures signatures[..] == old(signatures[..])[i := signature]
      ensures totalVotingPower == old(totalVotingPower) + power
    {
      signatures[i] := signature;
      voteBits[i] := true;
      totalVotingPower := totalVotingPower + power;
    }

    /** Take over the answers of another voteset that this one does not have yet. */
    method MergeResponse(other: FnVoteSet) returns (changed: bool)
      requires respBits != other.respBits && Separate()
      requires {hashes, oracleSigs} !! {other.hashes, other.oracleSigs}
      requires hashes.Length == respBits.Length == oracleSigs.Length
      requires other.hashes.Length == other.respBits.Length == other.oracleSigs.Length == hashes.Length
      modifies hashes, respBits, oracleSigs
      ensures hashes[..] ==
              Filled(old(hashes[..]), other.hashes[..], old(respBits[..]), other.respBits[..], hashes.Length)
      ensures oracleSigs[..] ==
              Filled(old(oracleSigs[..]), other.oracleSigs[..], old(respBits[..]), other.respBits[..], hashes.Length)
      ensures respBits[..] == Either(old(respBits[..]), other.respBits[..])
      ensures changed <==> AnyMark(NewVotes(old(respBits[..]), other.respBits[..]), hashes.Length)
    {
      changed := false;
      ghost var had, theirs, answers, theirAnswers, sigs, theirSigs :=
        respBits[..], other.respBits[..], hashes[..], other.hashes[..], oracleSigs[..], other.oracleSigs[..];
      ghost var added := NewVotes(had, theirs);
      for i := 0 to oracleSigs.Length
        invariant respBits[..] == Filled(had, theirs, had, theirs, i)
        invariant hashes[..] == Filled(answers, theirAnswers, had, theirs, i)
        invariant oracleSigs[..] == Filled(sigs, theirSigs, had, theirs, i)
        invariant changed == AnyMark(added, i)
      {
        FilledStep(had, theirs, had, theirs, i);
        FilledStep(answers, theirAnswers, had, theirs, i);
        FilledStep(sigs, theirSigs, had, theirs, i);
        assert respBits[i] == respBits[..][i];
        assert added[i] == (!respBits[i] && other.respBits[i]);
        if respBits[i] || !other.respBits[i] {
          continue;
        }
        changed := true;
        oracleSigs[i] := other.oracleSigs[i];
        hashes[i] := other.hashes[i];
        respBits[i] := true;
      }
    }

    /** Add this node's own signed vote. A failure may leave part of the work behind. */
    method AddVote(
      net: Network, nonce: int64, hash: Bytes, oracleSig: Option<Bytes>, i: nat, sign: Ballot -> Option<Bytes>
    ) returns (ok: bool)
      requires Separate() && Shaped(View(), net.Size()) && i < net.Size()
      modifies this, voteBits, hashes, respBits, oracleSigs, signatures
      ensures Added(View(), ok) == VoteAdded(net, old(View()), nonce, hash, oracleSig, i, sign)
    {
      ghost var was := View();
      if this.nonce != nonce || voteBits[i] || respBits[i] {
        return false;
      }
      oracleSigs[i], hashes[i], respBits[i] := oracleSig, Some(hash), true;
      assert View() == WithResponse(was, hash, oracleSig, i);
      var signature := sign(BallotAt(View(), i));
      if signature.None? {
        return false;
      }
      voteBits[i], signatures[i] := true, signature.value;
      if net.validators[i].address != addresses[i] {
        return false;
      }
      totalVotingPower := totalVotingPower + net.validators[i].power;
      ok := true;
    }

    method NumberOfVotes() returns (n: nat)
      ensures n == VoteSets.NumberOfVotes(View())
    {
      n := 0;
      for i := 0 to voteBits.Length
        invariant n == Count(View().voteBits, i)
      {
        if voteBits[i] {
          n := n + 1;
        }
      }
    }

    method MajResponse(net: Network) returns (r: Option<Aggregate>)
      requires Shaped(View(), net.Size()) && PositivePowers(net.validators)
      ensures r == MajOf(net, View())
    {
      r := ToMajResponse(net, hashes[..], oracleSigs[..]);
    }
  }
}
