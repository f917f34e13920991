/**
 * When does an honest node vote only once in a round? And what that gives the whole cluster: with at most a
 * third of the power dishonest, a round has one outcome.
 */
module SigningOnce {
  import opened Prelude
  import opened Validators
  import opened VoteSets
  import opened Tally
  import opened Reactor

  /*** What a step signs ***/

  /** The ballot of the node's own answer, as added to a voteset. */
  function OwnBallot(node: Node, v: VoteSet, answer: FnAnswer): (b: Ballot)
    requires node.own.Some? && node.own.value < node.net.Size() && Shaped(v, node.net.Size()) && answer.Answer?
    ensures b.hash == Some(node.digest(answer.message))
  {
    BallotAt(WithResponse(v, node.digest(answer.message), answer.oracleSig, node.own.value), node.own.value)
  }

  /** The ballot the local key is asked to sign in a step, if any. */
  ghost function SignedBallot(node: Node, s: State, step: Step): (b: Option<Ballot>)
    requires NodeOk(node)
    ensures b.Some? ==> b.value.hash.Some? && b.value.hash != Some([])
  {
    if node.own.None? then None else
    match step
    case CastVote(fnId, answer) =>
      if answer.Failed? || answer.oracleSig.None? || fnId !in node.net.registry then None
      else Some(OwnBallot(node, EmptyVoteSet(node.net, EffectiveNonce(s.mem, fnId), fnId), answer))
    case ReceiveVoteSet(m, answer) =>
      var p := NonceNoted(s.mem, m.fnId);
      if !Accepts(node, s, m) then None else
      if m.fnId in p.current && !Shaped(p.current[m.fnId], node.net.Size()) then None else
      var kept := Reconcile(node.net, p, m);
      if kept.Refused? || answer.Failed? then None else
      var v := kept.voteSet;
      if v.voteBits[node.own.value] || v.respBits[node.own.value] || v.nonce != kept.nonce then None
      else Some(OwnBallot(node, v, answer))
    case _ => None
  }

  /** The voteset shows the signed ballot as the node's vote. */
  ghost predicate Shows(node: Node, v: VoteSet, b: Ballot)
    requires NodeOk(node) && node.own.Some?
  {
    && Shaped(v, node.net.Size()) && v.voteBits[node.own.value]
    && BallotAt(v, node.own.value) == b && node.sign(b) == Some(v.signatures[node.own.value])
  }

  /** What is signed is what the voteset filed by the step shows. */
  lemma SignedIsFiled(node: Node, s: State, step: Step)
    requires NodeOk(node) && !Alone(node) && Inv(node, s) && Fits(s, step)
    requires SignedBallot(node, s, step).Some?
    ensures var b := SignedBallot(node, s, step).value;
      var t := Apply(node, s, step).state.mem;
      && b.fnId in t.current && Shows(node, t.current[b.fnId], b) && b.nonce == EffectiveNonce(t, b.fnId)
  {
    match step
    case CastVote(fnId, answer) => CastIsFiled(node, s, fnId, answer);
    case ReceiveVoteSet(m, answer) => AddedIsFiled(node, s, m, answer);
  }

  lemma CastIsFiled(node: Node, s: State, fnId: FnId, answer: FnAnswer)
    requires NodeOk(node) && !Alone(node) && SignedBallot(node, s, CastVote(fnId, answer)).Some?
    ensures var b := SignedBallot(node, s, CastVote(fnId, answer)).value;
      var t := VoteStep(node, s, fnId, answer).state.mem;
      && b.fnId == fnId && fnId in t.current && Shows(node, t.current[fnId], b)
      && b.nonce == EffectiveNonce(s.mem, fnId) == EffectiveNonce(t, fnId)
      && VoteStep(node, s, fnId, answer).state.disk == t
  {
    var nonce, hash, i := EffectiveNonce(s.mem, fnId), node.digest(answer.message), node.own.value;
    NewVoteSetValid(node.net, nonce, fnId, hash, answer.oracleSig, i, node.sign);
    var made := NewVoteSet(node.net, nonce, fnId, hash, answer.oracleSig, i, node.sign).value;
    SingleVoteCarries(node.net, made, i, hash);
  }

  lemma AddedIsFiled(node: Node, s: State, m: VoteSet, answer: FnAnswer)
    requires NodeOk(node) && Inv(node, s) && SignedBallot(node, s, ReceiveVoteSet(m, answer)).Some?
    ensures var b := SignedBallot(node, s, ReceiveVoteSet(m, answer)).value;
      var t := VoteSetStep(node, s, m, answer).state.mem;
      && b.fnId == m.fnId && m.fnId in t.current && Shows(node, t.current[m.fnId], b)
      && b.nonce == EffectiveNonce(t, m.fnId)
  {
    AcceptedStep(node, s, m, answer);
    var p := NonceNoted(s.mem, m.fnId);
    KeptIsValid(node.net, p, m);
    var v := Reconcile(node.net, p, m).voteSet;
    assert SlotValid(node.net, v, node.own.value);
  }

  /** The voteset holds the ballot as validator `own`'s vote. */
  predicate HasBallot(v: VoteSet, own: nat, b: Ballot) {
    Shaped(v, |v.voteBits|) && own < |v.voteBits| && v.voteBits[own] && BallotAt(v, own) == b
  }

  /** A vote of the node's own in a stored voteset was there before, came with the message, or is signed in the step. */
  lemma VoteHasSource(node: Node, s: State, step: Step, fnId: FnId, b: Ballot)
    requires NodeOk(node) && node.own.Some? && Inv(node, s) && step != Restart
    requires var t := Apply(node, s, step).state.mem.current; fnId in t && HasBallot(t[fnId], node.own.value, b)
    ensures || SignedBallot(node, s, step) == Some(b)
            || (fnId in s.mem.current && HasBallot(s.mem.current[fnId], node.own.value, b))
            || (step.ReceiveVoteSet? && step.m.fnId == fnId && HasBallot(step.m, node.own.value, b))
  {
    match step
    case CastVote(g, answer) => CastHasSource(node, s, g, answer, fnId, b);
    case Commit(g) => CommitHasSource(node, s, g, fnId);
    case ReceiveMaj23(_) =>
    case ReceiveVoteSet(m, answer) =>
      if fnId != m.fnId || !Accepts(node, s, m) {
        if fnId != m.fnId { OthersUntouched(node, s, m, answer, fnId); }
      } else {
        AddedHasSource(node, s, m, answer, b);
      }
  }

  lemma CommitHasSource(node: Node, s: State, g: FnId, fnId: FnId)
    requires NodeOk(node)
    ensures var t := CommitStep(node, s, g).state.mem.current;
      fnId in t ==> fnId in s.mem.current && t[fnId] == s.mem.current[fnId]
  {
  }

  lemma CastHasSource(node: Node, s: State, g: FnId, answer: FnAnswer, fnId: FnId, b: Ballot)
    requires NodeOk(node) && node.own.Some?
    requires var t := VoteStep(node, s, g, answer).state.mem.current; fnId in t && HasBallot(t[fnId], node.own.value, b)
    ensures || SignedBallot(node, s, CastVote(g, answer)) == Some(b)
            || (fnId in s.mem.current && HasBallot(s.mem.current[fnId], node.own.value, b))
  {
  }

  lemma AddedHasSource(node: Node, s: State, m: VoteSet, answer: FnAnswer, b: Ballot)
    requires NodeOk(node) && node.own.Some? && Inv(node, s) && Accepts(node, s, m)
    requires var t := VoteSetStep(node, s, m, answer).state.mem.current;
      m.fnId in t && HasBallot(t[m.fnId], node.own.value, b)
    ensures || SignedBallot(node, s, ReceiveVoteSet(m, answer)) == Some(b)
            || (m.fnId in s.mem.current && HasBallot(s.mem.current[m.fnId], node.own.value, b))
            || HasBallot(m, node.own.value, b)
  {
    AcceptedStep(node, s, m, answer);
    var p, i := NonceNoted(s.mem, m.fnId), node.own.value;
    KeptIsValid(node.net, p, m);
    var kept := Reconcile(node.net, p, m);
    if kept.Kept? {
      assert SlotValid(node.net, kept.voteSet, i);
      if kept.voteSet.voteBits[i] {
        assert Contribute(node, kept, answer) == kept;
        KeptHasSource(node.net, p, m, i, b);
      }
    }
  }

  lemma KeptHasSource(net: Network, p: Persisted, m: VoteSet, i: nat, b: Ballot)
    requires Healthy(net, p) && IsValid(net, m) && m.nonce >= EffectiveNonce(p, m.fnId) && i < net.Size()
    requires m.fnId in p.current ==> Shaped(p.current[m.fnId], net.Size())
    requires Reconcile(net, p, m).Kept? && HasBallot(Reconcile(net, p, m).voteSet, i, b)
    ensures (m.fnId in p.current && HasBallot(p.current[m.fnId], i, b)) || HasBallot(m, i, b)
  {
    if m.fnId in p.current {
      var v := p.current[m.fnId];
      assert CurrentOk(net, p, m.fnId);
      ValidIsSound(net, m);
      assert SlotValid(net, v, i) && SlotValid(net, m, i);
    }
  }

  /*** Rounds that are spent ***/

  /** The node's vote is in the voteset filed for the function. */
  predicate Voted(node: Node, p: Persisted, fnId: FnId)
    requires node.own.Some?
  {
    fnId in p.current && node.own.value < |p.current[fnId].voteBits| && p.current[fnId].voteBits[node.own.value]
  }

  /** The node has passed the round, or is in it and has voted. */
  ghost predicate Spent(node: Node, p: Persisted, fnId: FnId, nonce: int64)
    requires node.own.Some?
  {
    nonce < EffectiveNonce(p, fnId) || (nonce == EffectiveNonce(p, fnId) && Voted(node, p, fnId))
  }

  /** A restart forgets no vote. */
  ghost predicate Remembers(node: Node, s: State)
    requires node.own.Some?
  {
    forall fnId, nonce | Spent(node, s.mem, fnId, nonce) :: Spent(node, s.disk, fnId, nonce)
  }

  /** A commit throws away the voteset that holds the node's vote: the function's signature is missing from it. */
  ghost predicate Discards(node: Node, s: State, fnId: FnId)
    requires node.own.Some?
  {
    fnId in node.net.registry && Voted(node, s.mem, fnId) && !IsValid(node.net, s.mem.current[fnId])
  }

  /** The step throws away no vote of the node, and forgets none in a restart. */
  ghost predicate KeepsVotes(node: Node, s: State, step: Step)
    requires node.own.Some?
  {
    match step
    case Commit(fnId) => !Discards(node, s, fnId)
    case Restart => Remembers(node, s)
    case _ => true
  }

  /** The step loses no vote of the node: none is overwritten by another, thrown away, or forgotten in a restart. */
  ghost predicate Careful(node: Node, s: State, step: Step)
    requires NodeOk(node) && node.own.Some?
  {
    match step
    case CastVote(fnId, answer) => SignedBallot(node, s, step).Some? ==> !Voted(node, s.mem, fnId)
    case _ => KeepsVotes(node, s, step)
  }

  /** A round that is spent stays so. */
  lemma SpentStays(node: Node, s: State, step: Step, fnId: FnId, nonce: int64)
    requires NodeOk(node) && node.own.Some? && Inv(node, s) && Fits(s, step) && KeepsVotes(node, s, step)
    requires Spent(node, s.mem, fnId, nonce)
    ensures Spent(node, Apply(node, s, step).state.mem, fnId, nonce)
  {
    match step
    case CastVote(g, answer) => SpentStaysCasting(node, s, g, answer, fnId, nonce);
    case Commit(g) => SpentStaysCommitting(node, s, g, fnId, nonce);
    case ReceiveMaj23(m) => SpentStaysClosing(node, s, m, fnId, nonce);
    case ReceiveVoteSet(m, answer) => SpentStaysReceiving(node, s, m, answer, fnId, nonce);
    case Restart =>
  }

  lemma SpentStaysCasting(node: Node, s: State, g: FnId, answer: FnAnswer, fnId: FnId, nonce: int64)
    requires NodeOk(node) && node.own.Some? && Spent(node, s.mem, fnId, nonce)
    ensures Spent(node, VoteStep(node, s, g, answer).state.mem, fnId, nonce)
  {
    VoteNonce(node, s, g, answer, fnId);
  }

  lemma SpentStaysClosing(node: Node, s: State, m: VoteSet, fnId: FnId, nonce: int64)
    requires node.own.Some? && m.nonce < MAX_INT64 && Spent(node, s.mem, fnId, nonce)
    ensures Spent(node, Maj23Step(node, s, m).state.mem, fnId, nonce)
  {
  }

  lemma SpentStaysCommitting(node: Node, s: State, g: FnId, fnId: FnId, nonce: int64)
    requires NodeOk(node) && node.own.Some? && Inv(node, s) && Fits(s, Commit(g)) && !Discards(node, s, g)
    requires Spent(node, s.mem, fnId, nonce)
    ensures Spent(node, CommitStep(node, s, g).state.mem, fnId, nonce)
  {
    if g in s.mem.current { assert CurrentOk(node.net, s.mem, g); }
  }

  lemma SpentStaysReceiving(node: Node, s: State, m: VoteSet, answer: FnAnswer, fnId: FnId, nonce: int64)
    requires NodeOk(node) && node.own.Some? && Inv(node, s) && Spent(node, s.mem, fnId, nonce)
    ensures Spent(node, VoteSetStep(node, s, m, answer).state.mem, fnId, nonce)
  {
    if fnId != m.fnId {
      OthersUntouched(node, s, m, answer, fnId);
    } else if Accepts(node, s, m) {
      VoteSetNonce(node, s, m, answer, fnId);
      AcceptedStep(node, s, m, answer);
      VoteStays(node, NonceNoted(s.mem, fnId), m, answer);
    }
  }

  /** A voteset that is taken in keeps the node's vote, or takes the node to a later round. */
  lemma VoteStays(node: Node, p: Persisted, m: VoteSet, answer: FnAnswer)
    requires NodeOk(node) && node.own.Some? && Healthy(node.net, p) && IsValid(node.net, m)
    requires m.nonce >= EffectiveNonce(p, m.fnId)
    requires m.fnId in p.current ==> Shaped(p.current[m.fnId], node.net.Size())
    ensures var q := TakenIn(node, p, m, answer).mem;
      Voted(node, p, m.fnId) ==> EffectiveNonce(p, m.fnId) < EffectiveNonce(q, m.fnId) || Voted(node, q, m.fnId)
  {
    KeptIsValid(node.net, p, m);
  }

  /** A step signs only in a round that is not spent, and spends it. */
  lemma SigningSpends(node: Node, s: State, step: Step)
    requires NodeOk(node) && !Alone(node) && Inv(node, s) && Fits(s, step)
    requires SignedBallot(node, s, step).Some? && Careful(node, s, step)
    ensures var b := SignedBallot(node, s, step).value;
      && !Spent(node, s.mem, b.fnId, b.nonce)
      && Spent(node, Apply(node, s, step).state.mem, b.fnId, b.nonce)
  {
    SignedIsFiled(node, s, step);
    match step
    case CastVote(fnId, answer) => CastIsFiled(node, s, fnId, answer);
    case ReceiveVoteSet(m, answer) =>
      AddedIsFiled(node, s, m, answer);
      AcceptedStep(node, s, m, answer);
      KeptIsValid(node.net, NonceNoted(s.mem, m.fnId), m);
  }

  /*** Runs ***/

  datatype Run = Run(node: Node, states: seq<State>, steps: seq<Step>)

  ghost predicate SignsAt(r: Run, i: nat, b: Ballot)
    requires NodeOk(r.node)
  {
    i < |r.steps| && i < |r.states| && SignedBallot(r.node, r.states[i], r.steps[i]) == Some(b)
  }

  ghost predicate CarefulRun(r: Run) {
    && NodeOk(r.node) && r.node.own.Some? && !Alone(r.node)
    && IsFitRun(r.node, r.states, r.steps)
    && forall i | 0 <= i < |r.steps| :: Careful(r.node, r.states[i], r.steps[i])
  }

  lemma {:induction false} StaysSpent(r: Run, i: nat, j: nat, fnId: FnId, nonce: int64)
    requires CarefulRun(r) && i <= j <= |r.steps| && Spent(r.node, r.states[i].mem, fnId, nonce)
    ensures Spent(r.node, r.states[j].mem, fnId, nonce)
  {
    if i < j {
      StaysSpent(r, i, j - 1, fnId, nonce);
      RunKeepsInv(r.node, r.states, r.steps, j - 1);
      assert Careful(r.node, r.states[j - 1], r.steps[j - 1]);
      SpentStays(r.node, r.states[j - 1], r.steps[j - 1], fnId, nonce);
    }
  }

  /** In every careful run, restarts included, the rounds a node votes in strictly ascend. */
  lemma VotesAscend(r: Run, i: nat, b: Ballot, j: nat, c: Ballot)
    requires CarefulRun(r) && SignsAt(r, i, b) && SignsAt(r, j, c) && i < j && b.fnId == c.fnId
    ensures b.nonce < c.nonce
  {
    RunKeepsInv(r.node, r.states, r.steps, i);
    RunKeepsInv(r.node, r.states, r.steps, j);
    assert Careful(r.node, r.states[i], r.steps[i]) && Careful(r.node, r.states[j], r.steps[j]);
    SigningSpends(r.node, r.states[i], r.steps[i]);
    SigningSpends(r.node, r.states[j], r.steps[j]);
    StaysSpent(r, i + 1, j, b.fnId, b.nonce);
  }

  ghost predicate EverSigns(r: Run, b: Ballot)
    requires NodeOk(r.node)
  {
    exists i: nat :: SignsAt(r, i, b)
  }

  /** So it signs one ballot a round. */
  lemma SignsOnce(r: Run, b: Ballot, c: Ballot)
    requires CarefulRun(r) && EverSigns(r, b) && EverSigns(r, c) && b.fnId == c.fnId && b.nonce == c.nonce
    ensures b == c
  {
    var i: nat :| SignsAt(r, i, b);
    var j: nat :| SignsAt(r, j, c);
    SameStep(r, i, b, j, c);
  }

  lemma SameStep(r: Run, i: nat, b: Ballot, j: nat, c: Ballot)
    requires CarefulRun(r) && SignsAt(r, i, b) && SignsAt(r, j, c) && b.fnId == c.fnId && b.nonce == c.nonce
    ensures b == c
  {
    if i < j {
      VotesAscend(r, i, b, j, c);
    } else if j < i {
      VotesAscend(r, j, c, i, b);
    } else {
      assert Some(b) == Some(c);
    }
  }

  /*** Where care is needed ***/

  /**
   * Opening a round signs a second ballot in it exactly when the voteset it overwrites holds the node's vote;
   * and it leaves the round open for another exactly when the node's vote alone reaches the threshold.
   */
  lemma CastVoteSpends(node: Node, s: State, fnId: FnId, answer: FnAnswer)
    requires NodeOk(node) && Inv(node, s) && SignedBallot(node, s, CastVote(fnId, answer)).Some?
    ensures var b := SignedBallot(node, s, CastVote(fnId, answer)).value;
      var t := Apply(node, s, CastVote(fnId, answer)).state;
      && (Spent(node, s.mem, b.fnId, b.nonce) <==> Voted(node, s.mem, fnId))
      && (Spent(node, t.mem, b.fnId, b.nonce) <==>
            Voted(node, s.mem, fnId) || !Alone(node))
  {
    var nonce, hash, i := EffectiveNonce(s.mem, fnId), node.digest(answer.message), node.own.value;
    NewVoteSetValid(node.net, nonce, fnId, hash, answer.oracleSig, i, node.sign);
    var made := NewVoteSet(node.net, nonce, fnId, hash, answer.oracleSig, i, node.sign).value;
    SingleVoteCarries(node.net, made, i, hash);
  }

  /** The saved nonce and vote of a function bar all rounds that those in memory do. */
  ghost predicate SavedEnough(node: Node, s: State, fnId: FnId)
    requires node.own.Some?
  {
    var now, saved := EffectiveNonce(s.mem, fnId), EffectiveNonce(s.disk, fnId);
    || now < saved
    || (now == saved && (Voted(node, s.mem, fnId) ==> Voted(node, s.disk, fnId)))
    || (now == saved + 1 && Voted(node, s.disk, fnId) && !Voted(node, s.mem, fnId))
  }

  /** A restart forgets no vote exactly when for each function nonce and vote are saved, or the vote just before. */
  lemma RestartRemembers(node: Node, s: State)
    requires NodeOk(node) && Inv(node, s) && node.own.Some?
    ensures Remembers(node, s) <==> forall fnId :: SavedEnough(node, s, fnId)
  {
    if Remembers(node, s) {
      forall fnId
        ensures SavedEnough(node, s, fnId)
      {
        var now := EffectiveNonce(s.mem, fnId);
        assert now >= 1;
        assert Spent(node, s.mem, fnId, now - 1);
        assert Voted(node, s.mem, fnId) ==> Spent(node, s.mem, fnId, now);
      }
    }
    if forall fnId :: SavedEnough(node, s, fnId) {
      forall fnId, nonce | Spent(node, s.mem, fnId, nonce)
        ensures Spent(node, s.disk, fnId, nonce)
      {
        assert SavedEnough(node, s, fnId);
      }
    }
  }

  /** Committing gives up the node's vote in the current round exactly when it throws the voteset away. */
  lemma CommitSpends(node: Node, s: State, fnId: FnId)
    requires NodeOk(node) && Inv(node, s) && node.own.Some? && Fits(s, Commit(fnId)) && Voted(node, s.mem, fnId)
    ensures Spent(node, CommitStep(node, s, fnId).state.mem, fnId, EffectiveNonce(s.mem, fnId))
       <==> !Discards(node, s, fnId)
  {
    assert CurrentOk(node.net, s.mem, fnId);
    if !Discards(node, s, fnId) {
      SpentStaysCommitting(node, s, fnId, fnId, EffectiveNonce(s.mem, fnId));
    }
  }

  /** It never does while the function answers the voteset handler with signatures. */
  lemma SignedNeverDiscards(node: Node, states: seq<State>, steps: seq<Step>, i: nat, fnId: FnId)
    requires NodeOk(node) && node.own.Some? && IsFitRun(node, states, steps) && i <= |steps|
    requires forall k | 0 <= k < i :: Signed(steps[k])
    ensures !Discards(node, states[i], fnId)
  {
    RunKeepsValid(node, states, steps, i);
  }

  /**
   * A function that answers without a signature, as one that panics does, has the node sign a vote that makes its
   * voteset invalid. The next commit throws it away, and the node signs again in the same round.
   */
  lemma NilAnswerSignsAgain(node: Node, m: VoteSet, first: FnAnswer, second: FnAnswer)
    requires NodeOk(node) && node.own.Some? && IsValid(node.net, m) && m.nonce == 1 && !m.voteBits[node.own.value]
    requires first.Answer? && first.oracleSig.None? && second.Answer? && second.oracleSig.Some?
    ensures var s := Apply(node, Initial(), ReceiveVoteSet(m, first)).state;
      var t := Apply(node, s, Commit(m.fnId)).state;
      && Discards(node, s, m.fnId)
      && SignsTwice(SignedBallot(node, Initial(), ReceiveVoteSet(m, first)),
                    SignedBallot(node, t, CastVote(m.fnId, second)),
                    node.digest(first.message), node.digest(second.message))
  {
    var s := Apply(node, Initial(), ReceiveVoteSet(m, first)).state;
    assert SlotValid(node.net, m, node.own.value) && ResponseConsistentAt(m, node.own.value);
    AddedIsFiled(node, Initial(), m, first);
    var v := s.mem.current[m.fnId];
    assert BallotAt(v, node.own.value).oracleSig == None;
    assert !ResponseConsistentAt(v, node.own.value);
  }

  /** Two ballots of one round, for the two digests. */
  predicate SignsTwice(b: Option<Ballot>, c: Option<Ballot>, first: Bytes, second: Bytes) {
    && b.Some? && c.Some? && b.value.fnId == c.value.fnId && b.value.nonce == c.value.nonce
    && b.value.hash == Some(first) && c.value.hash == Some(second)
  }

  /**
   * The voteset handler does not save its vote. After a restart the node signs again in the same round,
   * whatever it then answers.
   */
  lemma RestartSignsAgain(node: Node, m: VoteSet, first: FnAnswer, second: FnAnswer)
    requires NodeOk(node) && node.own.Some? && IsValid(node.net, m) && m.nonce == 1 && !m.voteBits[node.own.value]
    requires first.Answer? && second.Answer? && second.oracleSig.Some?
    ensures var s := Apply(node, Initial(), ReceiveVoteSet(m, first)).state;
      var t := Apply(node, s, Restart).state;
      && !Remembers(node, s)
      && SignsTwice(SignedBallot(node, Initial(), ReceiveVoteSet(m, first)),
                    SignedBallot(node, t, CastVote(m.fnId, second)),
                    node.digest(first.message), node.digest(second.message))
  {
    var s := Apply(node, Initial(), ReceiveVoteSet(m, first)).state;
    assert SlotValid(node.net, m, node.own.value);
    AddedIsFiled(node, Initial(), m, first);
    assert Spent(node, s.mem, m.fnId, 1) && !Spent(node, s.disk, m.fnId, 1);
  }

  /*** The cluster ***/

  /** Which validators are honest, and what those did. */
  datatype Cluster = Cluster(net: Network, honest: seq<bool>, runs: seq<Run>)

  ghost predicate HonestRun(c: Cluster, i: nat)
    requires i < |c.runs|
  {
    CarefulRun(c.runs[i]) && c.runs[i].node.net == c.net && c.runs[i].node.own == Some(i)
  }

  ghost predicate ClusterOk(c: Cluster) {
    && |c.honest| == |c.runs| == c.net.Size()
    && forall i | 0 <= i < c.net.Size() && c.honest[i] :: HonestRun(c, i)
  }

  function Dishonest(c: Cluster): seq<bool> {
    seq(|c.honest|, i requires 0 <= i < |c.honest| => !c.honest[i])
  }

  /** At most a third of the power is dishonest, or not all of it when everyone must sign. */
  ghost predicate MostlyHonest(c: Cluster)
    requires |c.honest| == c.net.Size()
  {
    var bad := Power(c.net.validators, Dishonest(c), c.net.Size());
    if c.net.threshold == Maj23 then 3 * bad <= TotalPower(c.net.validators) else bad < TotalPower(c.net.validators)
  }

  /** Nobody forged a vote of an honest validator: those the voteset holds were signed by their owners. */
  ghost predicate Authentic(c: Cluster, v: VoteSet)
    requires ClusterOk(c)
  {
    && Shaped(v, c.net.Size())
    && forall i | 0 <= i < c.net.Size() && c.honest[i] && v.voteBits[i] ::
         HonestRun(c, i) && EverSigns(c.runs[i], BallotAt(v, i))
  }

  /** An honest validator is never accused. */
  lemma HonestNotAccused(c: Cluster, v: VoteSet, w: VoteSet, i: nat)
    requires ClusterOk(c) && Authentic(c, v) && Authentic(c, w) && i < c.net.Size() && c.honest[i]
    ensures !DoubleSigned(c.net, v, w, i)
  {
    if DoubleSigned(c.net, v, w, i) {
      assert HonestRun(c, i);
      SignsOnce(c.runs[i], BallotAt(v, i), BallotAt(w, i));
    }
  }

  /**
   * Agreement: while at most a third of the power is dishonest, all valid votesets that carry a round, wherever
   * they turn up and whatever the dishonest did, carry the same digest.
   */
  lemma ClusterAgreement(c: Cluster, v: VoteSet, w: VoteSet)
    requires ClusterOk(c) && MostlyHonest(c) && Authentic(c, v) && Authentic(c, w)
    requires IsValid(c.net, v) && IsValid(c.net, w) && v.nonce == w.nonce && v.fnId == w.fnId
    requires MajOf(c.net, v).Some? && MajOf(c.net, w).Some?
    ensures MajOf(c.net, v).value.hash == MajOf(c.net, w).value.hash
  {
    AccountableAgreement(c.net, v, w);
    forall i | 0 <= i < c.net.Size()
      ensures DoubleSigners(c.net, v, w)[i] ==> Dishonest(c)[i]
    {
      if c.honest[i] { HonestNotAccused(c, v, w, i); }
    }
    PowerMonotone(c.net.validators, DoubleSigners(c.net, v, w), Dishonest(c), c.net.Size());
  }

  lemma SignedDigest(r: Run, b: Ballot)
    requires NodeOk(r.node) && EverSigns(r, b)
    ensures b.hash.Some? && b.hash != Some([])
  {
    var i: nat :| SignsAt(r, i, b);
  }

  /** A carried round has an honest voter, so its digest is that of a message. */
  lemma CarriedByHonest(c: Cluster, v: VoteSet)
    requires ClusterOk(c) && MostlyHonest(c) && Authentic(c, v) && IsValid(c.net, v) && MajOf(c.net, v).Some?
    ensures MajOf(c.net, v).value.hash != []
  {
    var d := MajOf(c.net, v).value.hash;
    var voters := VotersFor(v.hashes, d);
    if forall i | 0 <= i < c.net.Size() && voters[i] :: Dishonest(c)[i] {
      PowerMonotone(c.net.validators, voters, Dishonest(c), c.net.Size());
      assert false;
    }
    var i :| 0 <= i < c.net.Size() && voters[i] && !Dishonest(c)[i];
    assert ResponseConsistentAt(v, i) && SlotValid(c.net, v, i);
    assert HonestRun(c, i);
    SignedDigest(c.runs[i], BallotAt(v, i));
  }

  /** So whatever is submitted for a round, by whomever and whenever, hashes to one and the same digest. */
  lemma ClusterSubmitsOneMessage(c: Cluster, a: Node, x: Submission, b: Node, y: Submission)
    requires ClusterOk(c) && MostlyHonest(c) && Authentic(c, x.backing) && Authentic(c, y.backing)
    requires NodeOk(a) && NodeOk(b) && a.net == b.net == c.net
    requires EverSubmits(a, x) && EverSubmits(b, y) && x.fnId == y.fnId && x.backing.nonce == y.backing.nonce
    ensures a.digest(x.payload) == b.digest(y.payload)
  {
    SubmissionsAgree(a, x, b, y);
    ClusterAgreement(c, x.backing, y.backing);
    CarriedByHonest(c, x.backing);
  }
}
