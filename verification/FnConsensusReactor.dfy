/**
 * The reactor itself, updating its maps step by step. Each operation is tied to its step in the state
 * machine of `Reactor.dfy`.
 */
module FnConsensusReactors {
  import opened Prelude
  import opened Validators
  import opened VoteSets
  import opened Tally
  import opened FnVoteSets
  import opened Reactor

  /** The submissions a step makes. */
  ghost function Made(r: Outcome): seq<Submission> {
    if r.submitted.Some? then [r.submitted.value] else []
  }

  class FnConsensusReactor {
    const node: Node
    var current: map<FnId, VoteSet>
    var nonces: map<FnId, int64>
    var prevMaj: map<FnId, VoteSet>
    var messages: map<FnId, Message>
    /** The last saved state: votesets are listed without their keys. */
    var savedCurrent: seq<VoteSet>
    var savedNonces: map<FnId, int64>
    var savedPrevMaj: seq<VoteSet>
    var submitted: seq<Submission>

    /** Votesets are filed under their own functions, or they would not be read back as they were saved. */
    ghost predicate Valid()
      reads this`current, this`prevMaj
    {
      OwnKeys(current) && OwnKeys(prevMaj)
    }

    /** The saved state as it will be read back. */
    function Disk(): Persisted
      reads this`savedCurrent, this`savedNonces, this`savedPrevMaj
    {
      Persisted(Rebuilt(savedCurrent), savedNonces, Rebuilt(savedPrevMaj))
    }

    function Memory(): Persisted
      reads this`current, this`nonces, this`prevMaj
    {
      Persisted(current, nonces, prevMaj)
    }

    function Abs(): State
      reads this
    {
      State(Memory(), messages, Disk())
    }

    constructor (node: Node)
      ensures this.node == node && Valid() && Abs() == Initial() && submitted == []
    {
      this.node := node;
      current, nonces, prevMaj, messages := map[], map[], map[], map[];
      savedCurrent, savedNonces, savedPrevMaj, submitted := [], map[], [], [];
    }

    /** Save the state to disk. */
    method Save()
      requires Valid()
      modifies this`savedCurrent, this`savedNonces, this`savedPrevMaj
      ensures Abs() == Saved(old(Abs()))
    {
      savedCurrent := Marshal(current);
      savedPrevMaj := Marshal(prevMaj);
      savedNonces := nonces;
      SavedIsReadBack(current, savedCurrent);
      SavedIsReadBack(prevMaj, savedPrevMaj);
    }

    /** Create and file this node's own vote for a new round. */
    method Vote(fnId: FnId, answer: FnAnswer)
      requires NodeOk(node) && Valid()
      modifies this
      ensures Valid() && Abs() == VoteStep(node, old(Abs()), fnId, answer).state
      ensures submitted == old(submitted) + Made(VoteStep(node, old(Abs()), fnId, answer))
    {
      if node.own.None? || answer.Failed? || fnId !in node.net.registry {
        return;
      }
      var hash := node.digest(answer.message);
      messages := messages[fnId := Message(answer.message, hash)];
      var nonce := if fnId in nonces then nonces[fnId] else 1;
      var v := FnVoteSet.NewVoteSet(node.net, nonce, fnId, hash, answer.oracleSig, node.own.value, node.sign);
      if v == null {
        return;
      }
      var agg := v.MajResponse(node.net);
      if agg.Some? {
        if messages[fnId].hash == agg.value.hash {
          submitted := submitted + [Submission(fnId, messages[fnId].payload, agg.value.oracleSigs, v.View())];
        }
        return;
      }
      current := current[fnId := v.View()];
      Save();
    }

    /** Close the round if it converged, submitting the message when it is this node's turn. */
    method Commit(fnId: FnId)
      requires NodeOk(node) && Valid()
      modifies this
      ensures Valid() && Abs() == CommitStep(node, old(Abs()), fnId).state
      ensures submitted == old(submitted) + Made(CommitStep(node, old(Abs()), fnId))
    {
      if fnId !in node.net.registry || fnId !in current {
        return;
      }
      var v := new FnVoteSet(current[fnId]);
      var valid := v.IsValid(node.net);
      if !valid {
        current := current - {fnId};
        Save();
        return;
      }
      if !HasConverged(node.net, current[fnId]) {
        Save();
        return;
      }
      var decision := DecideSubmission(fnId, v);
      if decision.Mismatch? {
        return;
      }
      if decision.Submit? {
        submitted := submitted + [decision.submission];
      }
      Close(fnId);
    }

    /** File the current voteset as the majority of its round, and move on to the next. */
    method Close(fnId: FnId)
      requires Valid() && fnId in current
      modifies this`current, this`nonces, this`prevMaj, this`savedCurrent, this`savedNonces, this`savedPrevMaj
      ensures Valid() && Abs() == Saved(old(Abs()).(mem := RoundClosed(old(Memory()), fnId, old(current)[fnId])))
    {
      nonces := nonces[fnId := Succ64(RawNonce(Memory(), fnId))];
      prevMaj := prevMaj[fnId := current[fnId]];
      current := current - {fnId};
      Save();
    }

    /** Is it this node's turn to submit, and does it hold the message that was agreed on? */
    method DecideSubmission(fnId: FnId, v: FnVoteSet) returns (r: Decision)
      requires NodeOk(node) && Shaped(v.View(), node.net.Size())
      ensures r == Decide(node, Abs(), fnId, v.View())
    {
      r := Skip;
      if node.own.Some? {
        var agg := v.MajResponse(node.net);
        if agg.Some? {
          var agreeing := NumberOfAgreeVotes(agg.value);
          var index := AgreeIndex(agg.value, node.own.value);
          if index != -1 && agreeing > 0 && Rem(RawNonce(Memory(), fnId), agreeing) == index {
            var message := MessageFor(messages, fnId);
            if message.hash != agg.value.hash {
              return Mismatch;
            }
            r := Submit(Submission(fnId, message.payload, agg.value.oracleSigs, v.View()));
          }
        }
      }
    }

    /** A voteset arrives that reached the threshold elsewhere. */
    method HandleMaj23(m: VoteSet) returns (announced: bool)
      requires Valid()
      modifies this
      ensures Valid() && Abs() == Maj23Step(node, old(Abs()), m).state && submitted == old(submitted)
      ensures announced == Maj23Step(node, old(Abs()), m).announced
    {
      var remote := new FnVoteSet(m);
      var valid := remote.IsValid(node.net);
      if !valid || !HasConverged(node.net, m) {
        return false;
      }
      announced := true;
      var nonce := EffectiveNonce(Memory(), m.fnId);
      if m.nonce < nonce {
        announced := false;
        if m.nonce == nonce - 1 && m.fnId !in prevMaj {
          prevMaj := prevMaj[m.fnId := m];
        }
      } else {
        prevMaj := prevMaj[m.fnId := m];
        nonces := nonces[m.fnId := Succ64(m.nonce)];
        current := current - {m.fnId};
      }
      Save();
    }

    /** Which of two votesets is more trustworthy? */
    method CompareFnVoteSets(remote: FnVoteSet, local: FnVoteSet?, nonce: int64) returns (order: int)
      requires PositivePowers(node.net.validators)
      requires Shaped(remote.View(), node.net.Size()) && (local != null ==> Shaped(local.View(), node.net.Size()))
      ensures order == CompareVoteSets(
                         node.net, remote.View(), if local == null then None else Some(local.View()), nonce)
    {
      if local == null {
        return if nonce == remote.nonce || HasConverged(node.net, remote.View()) then 1 else -1;
      }
      if local.nonce == remote.nonce {
        return 0;
      }
      var localConverged := HasConverged(node.net, local.View());
      var remoteConverged := HasConverged(node.net, remote.View());
      if localConverged && !remoteConverged {
        return -1;
      } else if !localConverged && remoteConverged {
        return 1;
      } else if !localConverged && !remoteConverged {
        return -1;
      }
      var localVotes := local.NumberOfVotes();
      var remoteVotes := remote.NumberOfVotes();
      if remoteVotes < localVotes {
        return -1;
      } else if remoteVotes > localVotes {
        return 1;
      }
      var ours := local.MajResponse(node.net);
      var theirs := remote.MajResponse(node.net);
      if ours.Some? && theirs.None? {
        return -1;
      } else if ours.None? && theirs.Some? {
        return 1;
      } else if ours.None? && theirs.None? {
        return -1;
      }
      var ourAgreeing := NumberOfAgreeVotes(ours.value);
      var theirAgreeing := NumberOfAgreeVotes(theirs.value);
      order := if theirAgreeing > ourAgreeing then 1 else -1;
    }

    /** Keep the local voteset, take the remote one, or merge them. */
    method ReconcileWith(remote: FnVoteSet) returns (kept: FnVoteSet?, nonce: int64, changed: bool)
      requires NodeOk(node) && IsValid(node.net, remote.View()) && remote.Separate()
      requires remote.fnId in current ==> IsSound(node.net, current[remote.fnId])
      ensures (kept == null) == Reconcile(node.net, Memory(), remote.View()).Refused?
      ensures kept != null ==> kept.Separate() && (kept == remote || fresh(kept.Footprint()))
      ensures kept != null ==> Kept(kept.View(), nonce, changed) == Reconcile(node.net, Memory(), remote.View())
    {
      ValidIsSound(node.net, remote.View());
      var local: FnVoteSet? := null;
      if remote.fnId in current {
        local := new FnVoteSet(current[remote.fnId]);
      }
      nonce := EffectiveNonce(Memory(), remote.fnId);
      var order := CompareFnVoteSets(remote, local, nonce);
      if order == 1 {
        return remote, remote.nonce, true;
      }
      if local == null {
        return null, nonce, false;
      }
      kept, changed := local, false;
      if order == 0 {
        var ok;
        changed, ok := MergeInto(local, remote);
        if !ok {
          return null, nonce, false;
        }
      }
    }

    /** Merging changes the receiver exactly when it reports so. */
    method MergeInto(local: FnVoteSet, remote: FnVoteSet) returns (changed: bool, ok: bool)
      requires IsSound(node.net, local.View()) && IsSound(node.net, remote.View())
      requires local.Separate() && local.Footprint() !! remote.Footprint()
      modifies local, local.voteBits, local.hashes, local.respBits, local.oracleSigs, local.signatures
      ensures ok == SameRound(old(local.View()), remote.View())
      ensures !ok ==> local.View() == old(local.View())
      ensures ok ==> local.View() == Merged(node.net, old(local.View()), remote.View())
      ensures ok ==> changed == (local.View() != old(local.View()))
    {
      ghost var was, m := local.View(), remote.View();
      changed, ok := local.Merge(node.net, remote);
      if ok {
        MergeReportsChange(node.net, was, m);
      }
    }

    /** A voteset arrives from a peer. */
    method HandleVoteSet(m: VoteSet, answer: FnAnswer) returns (announced: bool)
      requires NodeOk(node) && Valid() && (m.fnId in current ==> IsSound(node.net, current[m.fnId]))
      modifies this
      ensures Valid() && Abs() == VoteSetStep(node, old(Abs()), m, answer).state && submitted == old(submitted)
      ensures announced == VoteSetStep(node, old(Abs()), m, answer).announced
    {
      var remote := new FnVoteSet(m);
      var valid := remote.IsValid(node.net);
      if !valid {
        return false;
      }
      ghost var mem := Memory();
      var nonce := EffectiveNonce(Memory(), m.fnId);
      nonces := nonces[m.fnId := nonce];
      assert Memory() == NonceNoted(mem, m.fnId);
      if nonce > m.nonce {
        return false;
      }
      AcceptedTakes(node, State(mem, messages, Disk()), m, answer);
      announced := TakeIn(remote, answer);
    }

    /** Reconcile a valid voteset of the current round or a later one with what is stored, and vote. */
    method TakeIn(remote: FnVoteSet, answer: FnAnswer) returns (announced: bool)
      requires NodeOk(node) && Valid() && IsValid(node.net, remote.View()) && remote.Separate()
      requires remote.fnId in current ==> IsSound(node.net, current[remote.fnId])
      requires {this as object} !! remote.Footprint()
      modifies this`current, this`nonces
      modifies remote, remote.voteBits, remote.hashes, remote.respBits, remote.oracleSigs, remote.signatures
      ensures Valid() && Taken(Memory(), announced) == TakenIn(node, old(Memory()), old(remote.View()), answer)
    {
      var v, nonce, changed := ReconcileWith(remote);
      if v == null {
        return false;
      }
      announced := AddOwnVote(v, nonce, changed, answer);
      File(v, nonce);
    }

    method File(v: FnVoteSet, nonce: int64)
      requires Valid()
      modifies this`current, this`nonces
      ensures Valid() && Memory() == Filed(old(Memory()), v.View(), nonce)
    {
      current := current[v.fnId := v.View()];
      nonces := nonces[v.fnId := nonce];
    }

    /** Add this node's vote to the voteset, if it is a validator that has not voted yet. */
    method AddOwnVote(v: FnVoteSet, nonce: int64, changed: bool, answer: FnAnswer) returns (announce: bool)
      requires NodeOk(node) && v.Separate() && Shaped(v.View(), node.net.Size())
      modifies v, v.voteBits, v.hashes, v.respBits, v.oracleSigs, v.signatures
      ensures Kept(v.View(), nonce, announce) == Contribute(node, Kept(old(v.View()), nonce, changed), answer)
    {
      if node.own.None? || v.voteBits[node.own.value] {
        return changed;
      }
      if answer.Failed? {
        return false;
      }
      var hash := node.digest(answer.message);
      announce := v.AddVote(node.net, nonce, hash, answer.oracleSig, node.own.value, node.sign);
    }

    /** Restart: read back what was saved, forgetting the messages. */
    method OnStart()
      modifies this
      ensures Valid() && Abs() == State(old(Disk()), map[], old(Disk())) && submitted == old(submitted)
    {
      current := Unmarshal(savedCurrent);
      prevMaj := Unmarshal(savedPrevMaj);
      nonces, messages := savedNonces, map[];
      RebuiltHasOwnKeys(savedCurrent);
      RebuiltHasOwnKeys(savedPrevMaj);
    }
  }

  lemma MergeReportsChange(net: Network, a: VoteSet, b: VoteSet)
    requires IsSound(net, a) && IsSound(net, b) && SameRound(a, b)
    ensures Merged(net, a, b) != a <==>
            || AnyMark(NewVotes(a.respBits, b.respBits), net.Size())
            || AnyMark(NewVotes(a.voteBits, b.voteBits), net.Size())
  {
    MergeChanges(net, a, b);
    forall i | 0 <= i < net.Size()
      ensures NewVotes(a.respBits, b.respBits)[i] == NewVotes(a.voteBits, b.voteBits)[i]
      ensures NewVotes(a.voteBits, b.voteBits)[i] <==> i in Votes(b).Keys && i !in Votes(a).Keys
    {
      assert SlotValid(net, a, i) && SlotValid(net, b, i);
    }
  }

  /*** Saving and reading back ***/

  /** The saved state lists its votesets without their keys. */
  method Marshal(m: map<FnId, VoteSet>) returns (list: seq<VoteSet>)
    ensures |list| == |m| && Lists(list, m)
  {
    list := [];
    var left := m.Keys;
    while left != {}
      invariant left <= m.Keys && |list| + |left| == |m|
      invariant forall v :: v in list <==> exists k | k in m.Keys - left :: m[k] == v
      invariant forall i, j | 0 <= i < j < |list| :: OwnKeys(m) ==> list[i].fnId != list[j].fnId
    {
      var k :| k in left;
      assert OwnKeys(m) ==> forall v | v in list :: v.fnId != k;
      assert m.Keys - (left - {k}) == (m.Keys - left) + {k};
      list := list + [m[k]];
      left := left - {k};
    }
  }

  /** Reading the list back files every voteset under the function it names. */
  method Unmarshal(list: seq<VoteSet>) returns (m: map<FnId, VoteSet>)
    ensures m == Rebuilt(list)
  {
    m := map[];
    for i := 0 to |list|
      invariant m == Rebuilt(list[..i])
    {
      assert list[..i + 1][..i] == list[..i];
      m := m[list[i].fnId := list[i]];
    }
    assert list[..|list|] == list;
  }

  function Rebuilt(list: seq<VoteSet>): map<FnId, VoteSet> {
    if list == [] then map[]
    else Rebuilt(list[..|list| - 1])[list[|list| - 1].fnId := list[|list| - 1]]
  }

  /** No two votesets are about one function. */
  predicate DistinctFns(list: seq<VoteSet>) {
    forall i, j | 0 <= i < j < |list| :: list[i].fnId != list[j].fnId
  }

  ghost predicate Lists(list: seq<VoteSet>, m: map<FnId, VoteSet>) {
    && (forall v :: v in list <==> v in m.Values)
    && (OwnKeys(m) ==> DistinctFns(list))
  }

  lemma {:induction false} RebuiltHasOwnKeys(list: seq<VoteSet>)
    ensures OwnKeys(Rebuilt(list))
  {
    if list != [] { RebuiltHasOwnKeys(list[..|list| - 1]); }
  }

  lemma {:induction false} RebuiltFrom(list: seq<VoteSet>, k: FnId)
    ensures k in Rebuilt(list) ==> Rebuilt(list)[k] in list && Rebuilt(list)[k].fnId == k
  {
    if list != [] { RebuiltFrom(list[..|list| - 1], k); }
  }

  lemma {:induction false} RebuiltFinds(list: seq<VoteSet>, v: VoteSet)
    requires v in list
    ensures v.fnId in Rebuilt(list) && (DistinctFns(list) ==> Rebuilt(list)[v.fnId] == v)
  {
    var init, last := list[..|list| - 1], list[|list| - 1];
    if v != last {
      assert v in init;
      RebuiltFinds(init, v);
      if DistinctFns(list) {
        var i :| 0 <= i < |init| && init[i] == v;
        assert list[i].fnId != last.fnId;
      }
    }
  }

  /** What is saved is read back unchanged exactly when every voteset is filed under its own function. */
  lemma SavedIsReadBack(m: map<FnId, VoteSet>, list: seq<VoteSet>)
    requires Lists(list, m)
    ensures Rebuilt(list) == m <==> OwnKeys(m)
  {
    RebuiltHasOwnKeys(list);
    if OwnKeys(m) {
      forall k
        ensures k in Rebuilt(list) <==> k in m
        ensures k in m ==> Rebuilt(list)[k] == m[k]
      {
        RebuiltFrom(list, k);
        if k in m {
          assert m[k] in m.Values;
          RebuiltFinds(list, m[k]);
        }
      }
    }
  }

  /** In every run, whatever is saved can be read back: a restart finds what was in memory. */
  lemma RunReadsBack(
    node: Node, states: seq<State>, steps: seq<Step>, i: nat, current: seq<VoteSet>, prevMaj: seq<VoteSet>)
    requires NodeOk(node) && IsRun(node, states, steps) && i <= |steps|
    requires Lists(current, states[i].disk.current) && Lists(prevMaj, states[i].disk.prevMaj)
    ensures Rebuilt(current) == states[i].disk.current && Rebuilt(prevMaj) == states[i].disk.prevMaj
  {
    RunKeepsNamed(node, states, steps, i);
    SavedIsReadBack(states[i].disk.current, current);
    SavedIsReadBack(states[i].disk.prevMaj, prevMaj);
  }
}
