/** Why gossip dies down: every announced change raises the standing of the stored voteset, which is bounded. */
module Gossip {
  import opened Prelude
  import opened Validators
  import opened VoteSets
  import opened Tally
  import opened Reactor

  function Bit(b: bool): nat { if b then 1 else 0 }

  function High(n: nat, c: bool, count: nat): nat {
    if c then n + 1 + count else count
  }

  /** The tuple (converged, votes, majority, agreeing) read as a mixed-radix number. */
  function Encode(n: nat, c: bool, votes: nat, m: bool, agree: nat): nat {
    High(n, c, votes) * (2 * (n + 1)) + High(n, m, agree)
  }

  /** Tuples compared from the left. */
  predicate Below(c: bool, votes: nat, m: bool, agree: nat, c': bool, votes': nat, m': bool, agree': nat) {
    || (!c && c')
    || (c == c' && votes < votes')
    || (c == c' && votes == votes' && !m && m')
    || (c == c' && votes == votes' && m == m' && agree < agree')
  }

  lemma DigitsCompare(base: nat, hi: nat, lo: nat, hi': nat, lo': nat)
    requires lo < base && lo' < base
    ensures hi * base + lo < hi' * base + lo' <==> hi < hi' || (hi == hi' && lo < lo')
  {
    if hi < hi' {
      assert (hi + 1) * base <= hi' * base;
    } else if hi' < hi {
      assert (hi' + 1) * base <= hi * base;
    }
  }

  lemma EncodeOrders(n: nat, c: bool, votes: nat, m: bool, agree: nat, c': bool, votes': nat, m': bool, agree': nat)
    requires votes <= n && votes' <= n && agree <= n && agree' <= n
    ensures Encode(n, c, votes, m, agree) < Encode(n, c', votes', m', agree')
       <==> Below(c, votes, m, agree, c', votes', m', agree')
  {
    DigitsCompare(2 * (n + 1), High(n, c, votes), High(n, m, agree), High(n, c', votes'), High(n, m', agree'));
  }

  lemma EncodeBound(n: nat, c: bool, votes: nat, m: bool, agree: nat)
    requires votes <= n && agree <= n
    ensures Encode(n, c, votes, m, agree) < 4 * (n + 1) * (n + 1)
  {
    DigitsCompare(2 * (n + 1), High(n, c, votes), High(n, m, agree), 2 * (n + 1), 0);
    assert (2 * (n + 1)) * (2 * (n + 1)) == 4 * (n + 1) * (n + 1);
  }

  ghost function Agreeing(net: Network, v: VoteSet): nat
    requires Shaped(v, net.Size())
  {
    if MajOf(net, v).Some? then AgreeCount(MajOf(net, v).value) else 0
  }

  /** The standing of a voteset. */
  ghost function Standing(net: Network, v: VoteSet): nat
    requires Shaped(v, net.Size())
  {
    Encode(net.Size(), HasConverged(net, v), NumberOfVotes(v), MajOf(net, v).Some?, Agreeing(net, v))
  }

  lemma StandingBounds(net: Network, v: VoteSet)
    requires Shaped(v, net.Size())
    ensures NumberOfVotes(v) <= net.Size() && Agreeing(net, v) <= net.Size()
    ensures Standing(net, v) < 4 * (net.Size() + 1) * (net.Size() + 1)
  {
    CountBounds(v.voteBits, net.Size());
    if MajOf(net, v).Some? {
      CountBounds(MajOf(net, v).value.agreeBits, net.Size());
    }
    EncodeBound(net.Size(), HasConverged(net, v), NumberOfVotes(v), MajOf(net, v).Some?, Agreeing(net, v));
  }

  lemma StandingsCompare(net: Network, v: VoteSet, w: VoteSet)
    requires Shaped(v, net.Size()) && Shaped(w, net.Size())
    ensures Standing(net, v) < Standing(net, w)
       <==> Below(HasConverged(net, v), NumberOfVotes(v), MajOf(net, v).Some?, Agreeing(net, v),
                  HasConverged(net, w), NumberOfVotes(w), MajOf(net, w).Some?, Agreeing(net, w))
  {
    StandingBounds(net, v);
    StandingBounds(net, w);
    EncodeOrders(net.Size(), HasConverged(net, v), NumberOfVotes(v), MajOf(net, v).Some?, Agreeing(net, v),
                 HasConverged(net, w), NumberOfVotes(w), MajOf(net, w).Some?, Agreeing(net, w));
  }

  /** A voteset of another round is trusted over the local one exactly when it converged and stands higher. */
  lemma TrustIsStanding(net: Network, remote: VoteSet, local: VoteSet, nonce: int64)
    requires Shaped(remote, net.Size()) && Shaped(local, net.Size()) && remote.nonce != local.nonce
    ensures CompareVoteSets(net, remote, Some(local), nonce) == 1
       <==> HasConverged(net, remote) && Standing(net, local) < Standing(net, remote)
  {
    StandingsCompare(net, local, remote);
  }

  /** The standing of what is stored for a function; an empty slot stands lowest. */
  ghost function SlotStanding(net: Network, p: Persisted, fnId: FnId): nat
    requires Healthy(net, p)
  {
    if fnId in p.current then
      assert CurrentOk(net, p, fnId);
      1 + Standing(net, p.current[fnId])
    else 0
  }

  lemma SlotStandingBound(net: Network, p: Persisted, fnId: FnId)
    requires Healthy(net, p)
    ensures SlotStanding(net, p, fnId) <= 4 * (net.Size() + 1) * (net.Size() + 1)
  {
    if fnId in p.current {
      assert CurrentOk(net, p, fnId);
      StandingBounds(net, p.current[fnId]);
    }
  }

  lemma MoreVotesStandHigher(net: Network, v: VoteSet, w: VoteSet)
    requires Shaped(v, net.Size()) && Shaped(w, net.Size())
    requires HasConverged(net, v) ==> HasConverged(net, w)
    requires NumberOfVotes(v) < NumberOfVotes(w)
    ensures Standing(net, v) < Standing(net, w)
  {
    StandingsCompare(net, v, w);
  }

  /** Keeping a voteset never lowers the standing of the slot, and a change raises it. */
  lemma KeptStandsHigher(net: Network, p: Persisted, m: VoteSet)
    requires Healthy(net, p) && IsValid(net, m) && m.nonce >= EffectiveNonce(p, m.fnId)
    requires m.fnId in p.current ==> Shaped(p.current[m.fnId], net.Size())
    ensures var kept := Reconcile(net, p, m);
      kept.Kept? ==>
        && Shaped(kept.voteSet, net.Size())
        && (if kept.changed then SlotStanding(net, p, m.fnId) < 1 + Standing(net, kept.voteSet)
            else SlotStanding(net, p, m.fnId) == 1 + Standing(net, kept.voteSet))
  {
    KeptIsValid(net, p, m);
    ValidIsSound(net, m);
    if m.fnId in p.current {
      var v := p.current[m.fnId];
      if v.nonce == m.nonce {
        ValidVoteSetsMerge(net, v, m);
        MergeChanges(net, v, m);
        MergeIsJoin(net, v, m);
        if Merged(net, v, m) != v {
          MoreVotesStandHigher(net, v, Merged(net, v, m));
        }
      } else {
        TrustIsStanding(net, m, v, EffectiveNonce(p, m.fnId));
      }
    }
  }

  lemma ContributionStandsHigher(node: Node, kept: Kept, answer: FnAnswer)
    requires NodeOk(node) && kept.Kept? && IsSound(node.net, kept.voteSet) && kept.voteSet.nonce == kept.nonce
    ensures var r := Contribute(node, kept, answer);
      && Shaped(r.voteSet, node.net.Size())
      && Standing(node.net, kept.voteSet) <= Standing(node.net, r.voteSet)
      && (r.changed ==> kept.changed || Standing(node.net, kept.voteSet) < Standing(node.net, r.voteSet))
  {
    ContributionIsValid(node, kept, answer);
    var r := Contribute(node, kept, answer);
    if r != kept && r != kept.(changed := false) {
      PowerAtMostTotal(node.net.validators, r.voteSet.voteBits, node.net.Size());
      MoreVotesStandHigher(node.net, kept.voteSet, r.voteSet);
    }
  }

  /** An announced change raises the standing of its slot; no voteset message lowers any. */
  lemma AnnouncementRaises(node: Node, s: State, m: VoteSet, answer: FnAnswer, fnId: FnId)
    requires NodeOk(node) && Inv(node, s)
    requires Healthy(node.net, VoteSetStep(node, s, m, answer).state.mem)
    ensures var r := VoteSetStep(node, s, m, answer);
      && SlotStanding(node.net, s.mem, fnId) <= SlotStanding(node.net, r.state.mem, fnId)
      && (r.announced && m.fnId == fnId ==>
            SlotStanding(node.net, s.mem, fnId) < SlotStanding(node.net, r.state.mem, fnId))
  {
    if m.fnId == fnId {
      OwnSlotRaises(node, s, m, answer);
    } else {
      OthersUntouched(node, s, m, answer, fnId);
    }
  }

  lemma OwnSlotRaises(node: Node, s: State, m: VoteSet, answer: FnAnswer)
    requires NodeOk(node) && Inv(node, s) && Healthy(node.net, VoteSetStep(node, s, m, answer).state.mem)
    ensures var r := VoteSetStep(node, s, m, answer);
      SlotStanding(node.net, s.mem, m.fnId) + Bit(r.announced) <= SlotStanding(node.net, r.state.mem, m.fnId)
  {
    if Accepts(node, s, m) {
      AcceptedStep(node, s, m, answer);
      var p := NonceNoted(s.mem, m.fnId);
      KeptIsValid(node.net, p, m);
      KeptStandsHigher(node.net, p, m);
      var kept := Reconcile(node.net, p, m);
      if kept.Kept? { ContributionStandsHigher(node, kept, answer); }
    }
  }

  /** The step removes the voteset of the function, or replaces it without looking at it. */
  ghost predicate Disturbs(node: Node, s: State, step: Step, fnId: FnId)
    requires NodeOk(node)
  {
    || step.Restart?
    || (step.CastVote? && step.fnId == fnId && fnId in s.mem.current)
    || (fnId in s.mem.current && fnId !in Apply(node, s, step).state.mem.current)
  }

  ghost predicate Announces(node: Node, s: State, step: Step, fnId: FnId)
    requires NodeOk(node)
  {
    step.ReceiveVoteSet? && step.m.fnId == fnId && Apply(node, s, step).announced
  }

  lemma StepRaises(node: Node, s: State, step: Step, fnId: FnId)
    requires NodeOk(node) && Inv(node, s) && Fits(s, step) && !Disturbs(node, s, step, fnId)
    requires Inv(node, Apply(node, s, step).state)
    ensures var t := Apply(node, s, step).state;
      SlotStanding(node.net, s.mem, fnId) + Bit(Announces(node, s, step, fnId)) <= SlotStanding(node.net, t.mem, fnId)
  {
    if step.ReceiveVoteSet? {
      AnnouncementRaises(node, s, step.m, step.answer, fnId);
    } else {
      OthersKeep(node, s, step, fnId);
    }
  }

  lemma OthersKeep(node: Node, s: State, step: Step, fnId: FnId)
    requires NodeOk(node) && !Disturbs(node, s, step, fnId) && !step.ReceiveVoteSet?
    ensures var t := Apply(node, s, step).state.mem.current;
      fnId in s.mem.current ==> fnId in t && t[fnId] == s.mem.current[fnId]
  {
  }

  ghost function Announcements(node: Node, states: seq<State>, steps: seq<Step>, i: nat, j: nat, fnId: FnId): nat
    requires NodeOk(node) && i <= j <= |steps| < |states|
  {
    if i == j then 0
    else Announcements(node, states, steps, i, j - 1, fnId) + Bit(Announces(node, states[j - 1], steps[j - 1], fnId))
  }

  lemma {:induction false} AnnouncementsRaise(
    node: Node, states: seq<State>, steps: seq<Step>, i: nat, j: nat, fnId: FnId)
    requires NodeOk(node) && IsFitRun(node, states, steps) && i <= j <= |steps|
    requires forall k | i <= k < j :: !Disturbs(node, states[k], steps[k], fnId)
    ensures Inv(node, states[i]) && Inv(node, states[j])
    ensures Announcements(node, states, steps, i, j, fnId) + SlotStanding(node.net, states[i].mem, fnId)
         <= SlotStanding(node.net, states[j].mem, fnId)
  {
    RunKeepsInv(node, states, steps, i);
    RunKeepsInv(node, states, steps, j);
    if i < j {
      AnnouncementsRaise(node, states, steps, i, j - 1, fnId);
      StepRaises(node, states[j - 1], steps[j - 1], fnId);
    }
  }

  /**
   * In every stretch of every run that leaves the voteset of a function in place, fewer than
   * 4(n+1)^2 + 1 messages about it are announced further, whatever arrives and in whatever order.
   */
  lemma GossipIsBounded(node: Node, states: seq<State>, steps: seq<Step>, i: nat, j: nat, fnId: FnId)
    requires NodeOk(node) && IsFitRun(node, states, steps) && i <= j <= |steps|
    requires forall k | i <= k < j :: !Disturbs(node, states[k], steps[k], fnId)
    ensures Announcements(node, states, steps, i, j, fnId) <= 4 * (node.net.Size() + 1) * (node.net.Size() + 1)
  {
    AnnouncementsRaise(node, states, steps, i, j, fnId);
    SlotStandingBound(node.net, states[j].mem, fnId);
  }
}
