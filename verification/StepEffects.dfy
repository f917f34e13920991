/**
 * What each step of the reactor does, said without following its code: when a commit closes a round and when it
 * submits, what the voteset handler keeps, files and announces, and what no step touches.
 */
module StepEffects {
  import opened Prelude
  import opened Validators
  import opened VoteSets
  import opened Tally
  import opened Reactor
  import opened Gossip

  /*** Messages ***/

  /** A vote leaves its message behind, with the digest. */
  lemma VoteLeavesMessage(node: Node, s: State, fnId: FnId, answer: FnAnswer)
    requires NodeOk(node) && node.own.Some? && answer.Answer? && fnId in node.net.registry
    ensures var t := VoteStep(node, s, fnId, answer).state;
      fnId in t.messages && t.messages[fnId] == Message(answer.message, node.digest(answer.message))
  {
  }

  /** The step replaces or forgets the message of a function. */
  predicate RenewsMessage(step: Step, fnId: FnId) {
    step.Restart? || (step.CastVote? && step.fnId == fnId && step.answer.Answer?)
  }

  /** No other step touches it. */
  lemma MessageStays(node: Node, s: State, step: Step, fnId: FnId)
    requires NodeOk(node) && !RenewsMessage(step, fnId)
    ensures var t := Apply(node, s, step).state;
      (fnId in t.messages <==> fnId in s.messages) && (fnId in t.messages ==> t.messages[fnId] == s.messages[fnId])
  {
    match step
    case CastVote(g, answer) =>
    case Commit(g) => CommitKeepsMessages(node, s, g);
    case ReceiveMaj23(_) =>
    case ReceiveVoteSet(m, answer) => HandlerKeepsMessages(node, s, m, answer);
  }

  lemma CommitKeepsMessages(node: Node, s: State, fnId: FnId)
    requires NodeOk(node)
    ensures CommitStep(node, s, fnId).state.messages == s.messages
  {
  }

  lemma HandlerKeepsMessages(node: Node, s: State, m: VoteSet, answer: FnAnswer)
    requires NodeOk(node)
    ensures VoteSetStep(node, s, m, answer).state.messages == s.messages
  {
  }

  lemma {:induction false} MessageStaysInRun(
    node: Node, states: seq<State>, steps: seq<Step>, i: nat, j: nat, fnId: FnId)
    requires NodeOk(node) && IsRun(node, states, steps) && i <= j <= |steps| && fnId in states[i].messages
    requires forall k | i <= k < j :: !RenewsMessage(steps[k], fnId)
    ensures fnId in states[j].messages && states[j].messages[fnId] == states[i].messages[fnId]
  {
    if i < j {
      MessageStaysInRun(node, states, steps, i, j - 1, fnId);
      MessageStays(node, states[j - 1], steps[j - 1], fnId);
    }
  }

  /*** Submitting ***/

  /** Who agrees on the digest `d`, and their signatures. */
  function AgreedOn(v: VoteSet, d: Bytes): Aggregate
    requires |v.hashes| == |v.oracleSigs|
  {
    Aggregate(d, AgreeBits(v.hashes, d), AgreeingSigs(v.hashes, v.oracleSigs, d))
  }

  /** It is the turn of the validator among those that agree on `d`. */
  predicate IsTurnOf(own: Option<nat>, v: VoteSet, d: Bytes)
    requires |v.hashes| == |v.oracleSigs|
  {
    own.Some? && AgreeCount(AgreedOn(v, d)) > 0 && v.nonce >= 0 && Elected(AgreedOn(v, d), own.value, v.nonce)
  }

  /** The node holds the message with the digest `d`; a node without one goes along with the empty string. */
  predicate HoldsMessage(s: State, fnId: FnId, d: Bytes) {
    if fnId in s.messages then s.messages[fnId].hash == d else d == []
  }

  /** A registered function has a valid voteset that `d` carries. */
  ghost predicate Carried(node: Node, s: State, fnId: FnId, d: Bytes) {
    && fnId in node.net.registry && fnId in s.mem.current && IsValid(node.net, s.mem.current[fnId])
    && Carries(node.net, s.mem.current[fnId].hashes, d)
  }

  ghost predicate Submits(node: Node, s: State, fnId: FnId, d: Bytes) {
    Carried(node, s, fnId, d) && IsTurnOf(node.own, s.mem.current[fnId], d) && HoldsMessage(s, fnId, d)
  }

  lemma CarriedOutcome(node: Node, s: State, fnId: FnId, d: Bytes)
    requires NodeOk(node) && Inv(node, s) && Carried(node, s, fnId, d)
    ensures var v := s.mem.current[fnId];
      && MajOf(node.net, v) == Some(AgreedOn(v, d))
      && HasConverged(node.net, v) && RawNonce(s.mem, fnId) == v.nonce >= 1
  {
    var v := s.mem.current[fnId];
    assert CurrentOk(node.net, s.mem, fnId);
    OnlyOneCarries(node.net, v.hashes, d, MajOf(node.net, v).value.hash);
    CarriedImpliesConverged(node.net, v);
  }

  /** Deciding, said without its code. */
  lemma DecisionMeans(node: Node, s: State, fnId: FnId, d: Bytes)
    requires NodeOk(node) && Inv(node, s) && Carried(node, s, fnId, d)
    ensures var v := s.mem.current[fnId];
      Decide(node, s, fnId, v) ==
      if !IsTurnOf(node.own, v, d) then Skip
      else if !HoldsMessage(s, fnId, d) then Mismatch
      else Submit(Submission(fnId, MessageFor(s.messages, fnId).payload, AgreedOn(v, d).oracleSigs, v))
  {
    CarriedOutcome(node, s, fnId, d);
    var agg := AgreedOn(s.mem.current[fnId], d);
    AgreeRankBijection(agg);
    if node.own.Some? && AgreeCount(agg) > 0 {
      assert Rem(s.mem.current[fnId].nonce, AgreeCount(agg)) == s.mem.current[fnId].nonce % AgreeCount(agg);
    }
  }

  /**
   * A commit submits exactly when some digest carries the valid voteset, it is the node's turn among those that agree
   * on it, and the node holds the message. It submits that message, with the signatures of its voters.
   */
  lemma CommitSubmits(node: Node, s: State, fnId: FnId)
    requires NodeOk(node) && Inv(node, s)
    ensures CommitStep(node, s, fnId).submitted.Some? <==> exists d :: Submits(node, s, fnId, d)
    ensures forall d | Submits(node, s, fnId, d) ::
              CommitStep(node, s, fnId).submitted ==
              Some(Submission(
                     fnId, MessageFor(s.messages, fnId).payload, AgreedOn(s.mem.current[fnId], d).oracleSigs,
                     s.mem.current[fnId]))
  {
    forall d | Submits(node, s, fnId, d)
      ensures CommitStep(node, s, fnId).submitted ==
              Some(Submission(
                     fnId, MessageFor(s.messages, fnId).payload, AgreedOn(s.mem.current[fnId], d).oracleSigs,
                     s.mem.current[fnId]))
    {
      CarriedOutcome(node, s, fnId, d);
      DecisionMeans(node, s, fnId, d);
    }
    if CommitStep(node, s, fnId).submitted.Some? {
      var d := MajOf(node.net, s.mem.current[fnId]).value.hash;
      assert Carried(node, s, fnId, d);
      DecisionMeans(node, s, fnId, d);
      assert Submits(node, s, fnId, d);
    }
  }

  /** The node of validator `i` has the voteset, and holds the message. */
  ghost predicate CanSubmit(node: Node, s: State, net: Network, v: VoteSet, d: Bytes, i: nat) {
    && NodeOk(node) && Inv(node, s) && node.net == net && node.own == Some(i)
    && v.fnId in s.mem.current && s.mem.current[v.fnId] == v && HoldsMessage(s, v.fnId, d)
  }

  /** For every carried voteset, one agreeing validator submits on committing it, if it holds the message. */
  lemma SomeoneSubmits(net: Network, v: VoteSet, d: Bytes) returns (i: nat)
    requires IsValid(net, v) && Carries(net, v.hashes, d) && v.nonce >= 0
    ensures i < net.Size() && AgreeBits(v.hashes, d)[i]
    ensures forall node, s | CanSubmit(node, s, net, v, d, i) :: CommitStep(node, s, v.fnId).submitted.Some?
  {
    var agg := AgreedOn(v, d);
    var j :| 0 <= j < |v.hashes| && v.hashes[j] == Some(d);
    assert agg.agreeBits[j];
    CountBounds(agg.agreeBits, |agg.agreeBits|);
    OneSubmitter(agg, v.nonce);
    var k :| 0 <= k < |agg.agreeBits| && agg.agreeBits[k] && Elected(agg, k, v.nonce);
    i := k;
    forall node, s | CanSubmit(node, s, net, v, d, i)
      ensures CommitStep(node, s, v.fnId).submitted.Some?
    {
      assert Submits(node, s, v.fnId, d);
      CommitSubmits(node, s, v.fnId);
    }
  }

  /**
   * In every run, a node that has cast a vote and neither restarts nor casts another submits its message when it
   * commits, in its turn, a voteset that its digest carries.
   */
  lemma VoterSubmits(
    node: Node, states: seq<State>, steps: seq<Step>, i: nat, j: nat, fnId: FnId, answer: FnAnswer)
    requires NodeOk(node) && node.own.Some? && IsFitRun(node, states, steps) && i < j <= |steps|
    requires steps[i] == CastVote(fnId, answer) && answer.Answer? && fnId in node.net.registry
    requires forall k | i < k < j :: !RenewsMessage(steps[k], fnId)
    requires Carried(node, states[j], fnId, node.digest(answer.message))
    requires IsTurnOf(node.own, states[j].mem.current[fnId], node.digest(answer.message))
    ensures var r := Apply(node, states[j], Commit(fnId));
      r.submitted.Some? && r.submitted.value.payload == answer.message && r.submitted.value.fnId == fnId
  {
    VoteLeavesMessage(node, states[i], fnId, answer);
    MessageStaysInRun(node, states, steps, i + 1, j, fnId);
    RunKeepsInv(node, states, steps, j);
    assert Submits(node, states[j], fnId, node.digest(answer.message));
    CommitSubmits(node, states[j], fnId);
  }

  /*** Closing ***/

  /** It is the node's turn to submit, and it does not hold the message. */
  ghost predicate Blocked(node: Node, s: State, fnId: FnId) {
    exists d :: Carried(node, s, fnId, d) && IsTurnOf(node.own, s.mem.current[fnId], d) && !HoldsMessage(s, fnId, d)
  }

  lemma BlockedIsMismatch(node: Node, s: State, fnId: FnId)
    requires NodeOk(node) && Inv(node, s) && fnId in node.net.registry && fnId in s.mem.current
    requires IsValid(node.net, s.mem.current[fnId])
    ensures Blocked(node, s, fnId) <==> Decide(node, s, fnId, s.mem.current[fnId]).Mismatch?
  {
    var v := s.mem.current[fnId];
    if Blocked(node, s, fnId) {
      var d :|
        Carried(node, s, fnId, d) && IsTurnOf(node.own, s.mem.current[fnId], d) && !HoldsMessage(s, fnId, d);
      DecisionMeans(node, s, fnId, d);
    }
    if Decide(node, s, fnId, v).Mismatch? {
      var d := MajOf(node.net, v).value.hash;
      assert Carried(node, s, fnId, d);
      DecisionMeans(node, s, fnId, d);
    }
  }

  /**
   * What a commit does to its function: a valid, converged voteset is filed as the majority of its round and the nonce
   * moves on by one, unless the node is blocked; an invalid one is dropped; one that has not converged stays.
   * Everything but being blocked is saved.
   */
  lemma CommitEffect(node: Node, s: State, fnId: FnId)
    requires NodeOk(node) && Inv(node, s) && Fits(s, Commit(fnId)) && fnId in node.net.registry && fnId in s.mem.current
    ensures var v := s.mem.current[fnId];
      var t := CommitStep(node, s, fnId).state;
      var closes := IsValid(node.net, v) && HasConverged(node.net, v) && !Blocked(node, s, fnId);
      && (EffectiveNonce(t.mem, fnId) == if closes then v.nonce + 1 else v.nonce)
      && (fnId in t.mem.current <==> IsValid(node.net, v) && !closes)
      && (fnId in t.mem.current ==> t.mem.current[fnId] == v)
      && (closes ==> fnId in t.mem.prevMaj && t.mem.prevMaj[fnId] == v)
      && (if IsValid(node.net, v) && HasConverged(node.net, v) && Blocked(node, s, fnId) then t == s
          else t.disk == t.mem)
  {
    var v := s.mem.current[fnId];
    assert CurrentOk(node.net, s.mem, fnId);
    if IsValid(node.net, v) { BlockedIsMismatch(node, s, fnId); }
  }

  /** A commit of a function that is not registered, or has no voteset, does nothing. */
  lemma NothingToCommit(node: Node, s: State, fnId: FnId)
    requires NodeOk(node) && (fnId !in node.net.registry || fnId !in s.mem.current)
    ensures CommitStep(node, s, fnId) == Quiet(s)
  {
  }

  /** After a restart a node in its turn gets nowhere by committing, whatever message carries the round. */
  lemma RestartBlocks(node: Node, s: State, fnId: FnId, d: Bytes)
    requires NodeOk(node) && Inv(node, s) && d != []
    ensures var t := Apply(node, s, Restart).state;
      Carried(node, t, fnId, d) && IsTurnOf(node.own, t.mem.current[fnId], d) ==> CommitStep(node, t, fnId) == Quiet(t)
  {
    var t := Apply(node, s, Restart).state;
    if Carried(node, t, fnId, d) && IsTurnOf(node.own, t.mem.current[fnId], d) {
      CarriedOutcome(node, t, fnId, d);
      DecisionMeans(node, t, fnId, d);
    }
  }

  /*** What is left alone ***/

  /** The function a step is about. */
  function About(step: Step): FnId
    requires step != Restart
  {
    match step
    case CastVote(fnId, _) => fnId
    case Commit(fnId) => fnId
    case ReceiveMaj23(m) => m.fnId
    case ReceiveVoteSet(m, _) => m.fnId
  }

  /** All that memory holds of a function. */
  datatype Entry = Entry(current: Option<VoteSet>, nonce: Option<int64>, prevMaj: Option<VoteSet>)

  function Find<V>(m: map<FnId, V>, fnId: FnId): Option<V> {
    if fnId in m then Some(m[fnId]) else None
  }

  function EntryIn(p: Persisted, fnId: FnId): Entry {
    Entry(Find(p.current, fnId), Find(p.nonces, fnId), Find(p.prevMaj, fnId))
  }

  /** A step leaves all other functions alone. */
  lemma OthersStay(node: Node, s: State, step: Step, g: FnId)
    requires NodeOk(node) && Named(node, s) && step != Restart && g != About(step)
    ensures EntryIn(Apply(node, s, step).state.mem, g) == EntryIn(s.mem, g)
  {
    match step
    case CastVote(fnId, answer) => VoteLeavesOthers(node, s, fnId, answer, g);
    case Commit(fnId) => CommitLeavesOthers(node, s, fnId, g);
    case ReceiveMaj23(_) =>
    case ReceiveVoteSet(m, answer) => HandlerLeavesOthers(node, s, m, answer, g);
  }

  lemma VoteLeavesOthers(node: Node, s: State, fnId: FnId, answer: FnAnswer, g: FnId)
    requires NodeOk(node) && g != fnId
    ensures EntryIn(VoteStep(node, s, fnId, answer).state.mem, g) == EntryIn(s.mem, g)
  {
  }

  lemma CommitLeavesOthers(node: Node, s: State, fnId: FnId, g: FnId)
    requires NodeOk(node) && g != fnId
    ensures EntryIn(CommitStep(node, s, fnId).state.mem, g) == EntryIn(s.mem, g)
  {
  }

  lemma HandlerLeavesOthers(node: Node, s: State, m: VoteSet, answer: FnAnswer, g: FnId)
    requires NodeOk(node) && OwnKeys(s.mem.current) && g != m.fnId
    ensures EntryIn(VoteSetStep(node, s, m, answer).state.mem, g) == EntryIn(s.mem, g)
  {
    var p := NonceNoted(s.mem, m.fnId);
    if Accepts(node, s, m) && (m.fnId in p.current ==> Shaped(p.current[m.fnId], node.net.Size())) {
      var v, n := TakenInFiles(node, p, m, answer);
    }
  }

  /** Casting a vote and receiving a voteset leave the previous majorities alone. */
  lemma VotingKeepsPrevious(node: Node, s: State, step: Step)
    requires NodeOk(node) && Named(node, s) && (step.CastVote? || step.ReceiveVoteSet?)
    ensures Apply(node, s, step).state.mem.prevMaj == s.mem.prevMaj
  {
    if step.ReceiveVoteSet? {
      var m, p := step.m, NonceNoted(s.mem, step.m.fnId);
      if Accepts(node, s, m) && (m.fnId in p.current ==> Shaped(p.current[m.fnId], node.net.Size())) {
        var v, n := TakenInFiles(node, p, m, step.answer);
      }
    }
  }

  /** A late majority voteset is filed exactly if it is of the round just before and none is there yet. */
  lemma LateMajority(node: Node, s: State, m: VoteSet)
    requires NodeOk(node) && IsValid(node.net, m) && HasConverged(node.net, m)
    requires m.nonce < EffectiveNonce(s.mem, m.fnId)
    ensures var t := Maj23Step(node, s, m).state;
      && t.disk == t.mem && t.mem.current == s.mem.current && t.mem.nonces == s.mem.nonces
      && Find(t.mem.prevMaj, m.fnId) ==
         if m.fnId in s.mem.prevMaj then Some(s.mem.prevMaj[m.fnId])
         else if m.nonce + 1 == EffectiveNonce(s.mem, m.fnId) then Some(m) else None
  {
  }

  /*** The voteset handler ***/

  /**
   * The handler moves a node to a later round exactly for a valid, converged voteset of that round, where the node has
   * none or one that stands lower.
   */
  lemma HandlerRaises(node: Node, s: State, m: VoteSet, answer: FnAnswer)
    requires NodeOk(node) && Inv(node, s)
    ensures var t := VoteSetStep(node, s, m, answer).state;
      EffectiveNonce(s.mem, m.fnId) < EffectiveNonce(t.mem, m.fnId) <==>
      && IsValid(node.net, m) && m.nonce > EffectiveNonce(s.mem, m.fnId) && HasConverged(node.net, m)
      && (m.fnId in s.mem.current ==>
            && Shaped(s.mem.current[m.fnId], node.net.Size())
            && Standing(node.net, s.mem.current[m.fnId]) < Standing(node.net, m))
  {
    if Accepts(node, s, m) {
      AcceptedStep(node, s, m, answer);
      var p := NonceNoted(s.mem, m.fnId);
      KeptIsValid(node.net, p, m);
      if m.fnId in p.current && m.nonce != p.current[m.fnId].nonce {
        TrustIsStanding(node.net, m, p.current[m.fnId], EffectiveNonce(p, m.fnId));
      }
    }
  }

  /** An empty slot is filled exactly by a valid voteset of the node's round, or a converged one of a later round. */
  lemma SlotFilled(node: Node, s: State, m: VoteSet, answer: FnAnswer)
    requires NodeOk(node) && Inv(node, s) && m.fnId !in s.mem.current
    ensures var t := VoteSetStep(node, s, m, answer).state;
      var nonce := EffectiveNonce(s.mem, m.fnId);
      m.fnId in t.mem.current <==>
      IsValid(node.net, m) && (m.nonce == nonce || (m.nonce > nonce && HasConverged(node.net, m)))
  {
    if Accepts(node, s, m) {
      AcceptedStep(node, s, m, answer);
      KeptIsValid(node.net, NonceNoted(s.mem, m.fnId), m);
    }
  }

  /** A voteset that is invalid or of an earlier round changes no voteset and no nonce, and is not announced. */
  lemma HandlerRefuses(node: Node, s: State, m: VoteSet, answer: FnAnswer)
    requires NodeOk(node) && !Accepts(node, s, m)
    ensures var r := VoteSetStep(node, s, m, answer);
      && r.state.mem.current == s.mem.current && !r.announced
      && forall fnId :: EffectiveNonce(r.state.mem, fnId) == EffectiveNonce(s.mem, fnId)
  {
  }

  /** The votes the handler starts from: those of both votesets of one round, else those of the one it keeps. */
  ghost function Gathered(s: State, m: VoteSet, kept: int64): map<nat, Vote>
    requires Shaped(m, |m.voteBits|)
    requires m.fnId in s.mem.current ==> Shaped(s.mem.current[m.fnId], |s.mem.current[m.fnId].voteBits|)
  {
    if m.fnId !in s.mem.current then Votes(m)
    else if s.mem.current[m.fnId].nonce == m.nonce then Votes(m) + Votes(s.mem.current[m.fnId])
    else if kept == m.nonce then Votes(m) else Votes(s.mem.current[m.fnId])
  }

  /** The slot holds exactly the gathered votes, and the node's own answer if it had not voted and there is one. */
  lemma HandlerVotes(node: Node, s: State, m: VoteSet, answer: FnAnswer)
    requires NodeOk(node) && Inv(node, s) && Accepts(node, s, m)
    requires m.fnId in VoteSetStep(node, s, m, answer).state.mem.current
    ensures var w := VoteSetStep(node, s, m, answer).state.mem.current[m.fnId];
      && IsSound(node.net, w) && w.nonce == EffectiveNonce(VoteSetStep(node, s, m, answer).state.mem, m.fnId)
      && (m.fnId in s.mem.current ==> Shaped(s.mem.current[m.fnId], |s.mem.current[m.fnId].voteBits|))
      && var gathered := Gathered(s, m, w.nonce);
      Votes(w) ==
      if node.own.Some? && node.own.value !in gathered && answer.Answer?
      then gathered[node.own.value := Vote(Some(node.digest(answer.message)), answer.oracleSig,
                                           w.signatures[node.own.value])]
      else gathered
  {
    AcceptedStep(node, s, m, answer);
    KeptIsGathered(node, s, m);
    OwnVoteAdded(node, Reconcile(node.net, NonceNoted(s.mem, m.fnId), m), answer);
  }

  lemma KeptIsGathered(node: Node, s: State, m: VoteSet)
    requires NodeOk(node) && Inv(node, s) && Accepts(node, s, m)
    requires m.fnId in s.mem.current ==> Shaped(s.mem.current[m.fnId], node.net.Size())
    ensures var kept := Reconcile(node.net, NonceNoted(s.mem, m.fnId), m);
      && (m.fnId in s.mem.current ==> kept.Kept?)
      && (kept.Kept? ==>
            && IsSound(node.net, kept.voteSet) && kept.voteSet.nonce == kept.nonce && kept.voteSet.fnId == m.fnId
            && Votes(kept.voteSet) == Gathered(s, m, kept.nonce))
  {
    var p := NonceNoted(s.mem, m.fnId);
    NonceFilingKeepsHealthy(node.net, s.mem, m.fnId);
    KeptIsValid(node.net, p, m);
    ValidIsSound(node.net, m);
    if m.fnId in p.current && p.current[m.fnId].nonce == m.nonce {
      ValidVoteSetsMerge(node.net, p.current[m.fnId], m);
      MergeIsJoin(node.net, p.current[m.fnId], m);
    }
  }

  /** Contributing adds the node's own answer to the votes, or nothing. */
  lemma OwnVoteAdded(node: Node, kept: Kept, answer: FnAnswer)
    requires NodeOk(node) && kept.Kept? && IsSound(node.net, kept.voteSet) && kept.voteSet.nonce == kept.nonce
    ensures var w := Contribute(node, kept, answer).voteSet;
      && IsSound(node.net, w) && w.nonce == kept.nonce
      && Votes(w) ==
         if node.own.Some? && node.own.value !in Votes(kept.voteSet) && answer.Answer?
         then Votes(kept.voteSet)[node.own.value := Vote(Some(node.digest(answer.message)), answer.oracleSig,
                                                         w.signatures[node.own.value])]
         else Votes(kept.voteSet)
  {
    if node.own.Some? && !kept.voteSet.voteBits[node.own.value] && answer.Answer? {
      var hash := node.digest(answer.message);
      AddVoteKeepsValid(node.net, kept.voteSet, hash, answer.oracleSig, node.own.value, node.sign);
    }
  }

  /** The handler announces exactly the changes to the stored voteset, unless a validator failed to add its vote. */
  lemma AnnouncesChanges(node: Node, s: State, m: VoteSet, answer: FnAnswer)
    requires NodeOk(node) && Inv(node, s)
    ensures var r := VoteSetStep(node, s, m, answer);
      var before, after := Find(s.mem.current, m.fnId), Find(r.state.mem.current, m.fnId);
      r.announced <==>
      && before != after && after.Some?
      && (node.own.Some? ==> node.own.value < |after.value.voteBits| && after.value.voteBits[node.own.value])
  {
    if Accepts(node, s, m) {
      AcceptedStep(node, s, m, answer);
      TakenInAnnounces(node, NonceNoted(s.mem, m.fnId), m, answer);
    } else {
      HandlerRefuses(node, s, m, answer);
    }
  }

  lemma TakenInAnnounces(node: Node, p: Persisted, m: VoteSet, answer: FnAnswer)
    requires NodeOk(node) && Healthy(node.net, p) && IsValid(node.net, m) && m.nonce >= EffectiveNonce(p, m.fnId)
    requires m.fnId in p.current ==> Shaped(p.current[m.fnId], node.net.Size())
    ensures var r := TakenIn(node, p, m, answer);
      var before, after := Find(p.current, m.fnId), Find(r.mem.current, m.fnId);
      r.announced <==>
      && before != after && after.Some?
      && (node.own.Some? ==> node.own.value < |after.value.voteBits| && after.value.voteBits[node.own.value])
  {
    KeptIsValid(node.net, p, m);
    var kept := Reconcile(node.net, p, m);
    if kept.Kept? {
      KeptChanged(node.net, p, m);
      ContributionChanges(node, kept, answer);
      if m.fnId in p.current { KeptHasMore(node.net, p, m); }
    }
  }

  /** Of one round, what is kept has no fewer votes than what was stored. */
  lemma KeptHasMore(net: Network, p: Persisted, m: VoteSet)
    requires Healthy(net, p) && IsValid(net, m) && m.nonce >= EffectiveNonce(p, m.fnId) && m.fnId in p.current
    requires Shaped(p.current[m.fnId], net.Size()) && Reconcile(net, p, m).Kept?
    ensures var kept := Reconcile(net, p, m).voteSet;
      kept.nonce == p.current[m.fnId].nonce ==> NumberOfVotes(p.current[m.fnId]) <= NumberOfVotes(kept)
  {
    var v := p.current[m.fnId];
    assert CurrentOk(net, p, m.fnId);
    if v.nonce == m.nonce {
      ValidIsSound(net, m);
      ValidVoteSetsMerge(net, v, m);
      MergeChanges(net, v, m);
    }
  }

  /** Reconciling reports a change exactly when the slot is to hold something else. */
  lemma KeptChanged(net: Network, p: Persisted, m: VoteSet)
    requires Healthy(net, p) && IsValid(net, m) && m.nonce >= EffectiveNonce(p, m.fnId)
    requires m.fnId in p.current ==> Shaped(p.current[m.fnId], net.Size())
    requires Reconcile(net, p, m).Kept?
    ensures Reconcile(net, p, m).changed <==> Find(p.current, m.fnId) != Some(Reconcile(net, p, m).voteSet)
  {
  }

  /** A contribution is announced if it adds the node's vote, or has nothing to add to a change. */
  lemma ContributionChanges(node: Node, kept: Kept, answer: FnAnswer)
    requires NodeOk(node) && kept.Kept? && IsSound(node.net, kept.voteSet) && kept.voteSet.nonce == kept.nonce
    ensures var r := Contribute(node, kept, answer);
      && IsSound(node.net, r.voteSet)
      && (node.own.None? || kept.voteSet.voteBits[node.own.value] ==> r == kept)
      && (node.own.Some? && !kept.voteSet.voteBits[node.own.value] ==>
            (r.changed <==> r.voteSet.voteBits[node.own.value]) && (!r.changed ==> r.voteSet == kept.voteSet))
      && NumberOfVotes(kept.voteSet) <= NumberOfVotes(r.voteSet)
      && (r.voteSet != kept.voteSet ==> NumberOfVotes(kept.voteSet) < NumberOfVotes(r.voteSet))
  {
    if node.own.Some? && !kept.voteSet.voteBits[node.own.value] && answer.Answer? {
      var hash := node.digest(answer.message);
      AddVoteKeepsValid(node.net, kept.voteSet, hash, answer.oracleSig, node.own.value, node.sign);
    }
  }
}
