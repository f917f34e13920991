/**
 * The voting reactor of one validator as a state machine: casting a vote, committing a round, the two
 * message handlers, and a restart from disk. The validator set is fixed, as with `OverrideValidators`.
 */
module Reactor {
  import opened Prelude
  import opened Validators
  import opened VoteSets
  import opened Tally

  /** One node: the cluster it belongs to, its place in it, its signing key and the message digest. */
  datatype Node = Node(net: Network, own: Option<nat>, sign: Ballot -> Option<Bytes>, digest: Bytes -> Bytes)

  /** The local signer works and digests are never empty. */
  ghost predicate NodeOk(node: Node) {
    && PositivePowers(node.net.validators)
    && (node.own.Some? ==> node.own.value < node.net.Size() && SignsFor(node.net, node.sign, node.own.value))
    && (forall m: Bytes :: node.digest(m) != [])
  }

  /** What a registered function answers when asked for its message. A nil signature is possible. */
  datatype FnAnswer = Failed | Answer(message: Bytes, oracleSig: Option<Bytes>)

  datatype Message = Message(payload: Bytes, hash: Bytes)

  /** A call of `SubmitMultiSignedMessage`, with the voteset it was made for. */
  datatype Submission = Submission(fnId: FnId, payload: Bytes, signatures: seq<Option<Bytes>>, backing: VoteSet)

  datatype Persisted = Persisted(
    current: map<FnId, VoteSet>, nonces: map<FnId, int64>, prevMaj: map<FnId, VoteSet>)

  datatype State = State(mem: Persisted, messages: map<FnId, Message>, disk: Persisted)

  datatype Outcome = Outcome(state: State, submitted: Option<Submission>, announced: bool)

  const EMPTY: Persisted := Persisted(map[], map[], map[])

  function Initial(): State { State(EMPTY, map[], EMPTY) }

  function Saved(s: State): State { s.(disk := s.mem) }

  function Quiet(s: State): Outcome { Outcome(s, None, false) }

  function EffectiveNonce(p: Persisted, fnId: FnId): int64 {
    if fnId in p.nonces then p.nonces[fnId] else 1
  }

  function RawNonce(p: Persisted, fnId: FnId): int64 {
    if fnId in p.nonces then p.nonces[fnId] else 0
  }

  function MessageFor(messages: map<FnId, Message>, fnId: FnId): Message {
    if fnId in messages then messages[fnId] else Message([], [])
  }

  /** Remainder of truncating division. */
  function Rem(a: int, b: int): int
    requires b > 0
  {
    if a >= 0 then a % b else -((-a) % b)
  }

  predicate IsSubmitter(agg: Aggregate, own: nat, nonce: int64) {
    AgreeCount(agg) > 0 && AgreeRank(agg, own) != -1 && Rem(nonce, AgreeCount(agg)) == AgreeRank(agg, own)
  }

  /*** Casting a vote ***/

  /** The node remembers its message. */
  function Noted(s: State, fnId: FnId, message: Message): State {
    s.(messages := s.messages[fnId := message])
  }

  /** A new round is opened, over whatever was there, and saved. */
  function Opened(s: State, fnId: FnId, v: VoteSet): State {
    Saved(s.(mem := s.mem.(current := s.mem.current[fnId := v])))
  }

  ghost function VoteStep(node: Node, s: State, fnId: FnId, answer: FnAnswer): Outcome
    requires NodeOk(node)
  {
    if node.own.None? || answer.Failed? || fnId !in node.net.registry then
      Quiet(s)
    else
      var hash := node.digest(answer.message);
      var s1 := Noted(s, fnId, Message(answer.message, hash));
      var nonce := EffectiveNonce(s.mem, fnId);
      var made := NewVoteSet(node.net, nonce, fnId, hash, answer.oracleSig, node.own.value, node.sign);
      if made.None? then
        Quiet(s1)
      else
        var agg := MajOf(node.net, made.value);
        if agg.None? then
          Quiet(Opened(s1, fnId, made.value))
        else if hash != agg.value.hash then
          Quiet(s1)
        else
          Outcome(s1, Some(Submission(fnId, answer.message, agg.value.oracleSigs, made.value)), false)
  }

  /*** Committing a round ***/

  /** The node decides to submit the carried round: nothing, a digest mismatch, or a submission. */
  datatype Decision = Skip | Mismatch | Submit(submission: Submission)

  ghost function Decide(node: Node, s: State, fnId: FnId, v: VoteSet): Decision
    requires Shaped(v, node.net.Size())
  {
    if node.own.None? then Skip else
    var agg := MajOf(node.net, v);
    if agg.None? || !IsSubmitter(agg.value, node.own.value, RawNonce(s.mem, fnId)) then Skip else
    var message := MessageFor(s.messages, fnId);
    if message.hash != agg.value.hash then Mismatch else
    Submit(Submission(fnId, message.payload, agg.value.oracleSigs, v))
  }

  function RoundClosed(p: Persisted, fnId: FnId, v: VoteSet): Persisted {
    Persisted(p.current - {fnId}, p.nonces[fnId := Succ64(RawNonce(p, fnId))], p.prevMaj[fnId := v])
  }

  ghost function CommitStep(node: Node, s: State, fnId: FnId): Outcome
    requires NodeOk(node)
  {
    if fnId !in node.net.registry || fnId !in s.mem.current then
      Quiet(s)
    else
      var v := s.mem.current[fnId];
      if !IsValid(node.net, v) then
        Quiet(Saved(s.(mem := s.mem.(current := s.mem.current - {fnId}))))
      else if !HasConverged(node.net, v) then
        Quiet(Saved(s))
      else
        var decision := Decide(node, s, fnId, v);
        if decision.Mismatch? then
          Quiet(s)
        else
          Outcome(Saved(s.(mem := RoundClosed(s.mem, fnId, v))),
                  if decision.Submit? then Some(decision.submission) else None, false)
  }

  /*** Receiving a voteset that reached the threshold ***/

  /** The round of the voteset is over: it is filed as its majority, and the nonce is the next. */
  function MovedPast(p: Persisted, m: VoteSet): Persisted {
    Persisted(p.current - {m.fnId}, p.nonces[m.fnId := Succ64(m.nonce)], p.prevMaj[m.fnId := m])
  }

  ghost function Maj23Step(node: Node, s: State, m: VoteSet): Outcome {
    if !IsValid(node.net, m) || !HasConverged(node.net, m) then
      Quiet(s)
    else
      var p := s.mem;
      var nonce := EffectiveNonce(p, m.fnId);
      if m.nonce < nonce then
        if m.nonce == nonce - 1 && m.fnId !in p.prevMaj then
          Quiet(Saved(s.(mem := p.(prevMaj := p.prevMaj[m.fnId := m]))))
        else
          Quiet(Saved(s))
      else
        Outcome(Saved(s.(mem := MovedPast(p, m))), None, true)
  }

  /*** Receiving a voteset ***/

  /** 1: the remote voteset is more trustworthy, -1: the local one is, 0: merge them. */
  ghost function CompareVoteSets(net: Network, remote: VoteSet, current: Option<VoteSet>, nonce: int64): int
    requires Shaped(remote, net.Size()) && (current.Some? ==> Shaped(current.value, net.Size()))
  {
    if current.None? then
      if nonce == remote.nonce || HasConverged(net, remote) then 1 else -1
    else if current.value.nonce == remote.nonce then
      0
    else if !HasConverged(net, remote) then
      -1
    else if !HasConverged(net, current.value) then
      1
    else if NumberOfVotes(remote) != NumberOfVotes(current.value) then
      if NumberOfVotes(remote) > NumberOfVotes(current.value) then 1 else -1
    else
      var ours, theirs := MajOf(net, current.value), MajOf(net, remote);
      if theirs.None? then -1
      else if ours.None? then 1
      else if AgreeCount(theirs.value) > AgreeCount(ours.value) then 1 else -1
  }

  /** The voteset kept after looking at the remote one, the nonce in effect then, and whether it changed. */
  datatype Kept = Kept(voteSet: VoteSet, nonce: int64, changed: bool) | Refused

  ghost function Reconcile(net: Network, p: Persisted, m: VoteSet): (kept: Kept)
    requires IsValid(net, m)
    requires m.fnId in p.current ==> Shaped(p.current[m.fnId], net.Size())
    ensures kept.Kept? ==> Shaped(kept.voteSet, net.Size())
  {
    var current := if m.fnId in p.current then Some(p.current[m.fnId]) else None;
    var nonce := EffectiveNonce(p, m.fnId);
    var order := CompareVoteSets(net, m, current, nonce);
    if order == 1 then Kept(m, m.nonce, true)
    else if current.None? then Refused
    else if order == -1 then Kept(current.value, nonce, false)
    else if !SameRound(current.value, m) then Refused
    else
      Kept(Merged(net, current.value, m), nonce, Merged(net, current.value, m) != current.value)
  }

  /** The kept voteset and the nonce in effect are filed; the nonce is filed even when nothing is kept. */
  function Filed(p: Persisted, v: VoteSet, nonce: int64): Persisted {
    p.(current := p.current[v.fnId := v], nonces := p.nonces[v.fnId := nonce])
  }

  /** The node adds its own vote if it has not voted yet. A change is announced unless adding failed. */
  function Contribute(node: Node, kept: Kept, answer: FnAnswer): (r: Kept)
    requires kept.Kept? && Shaped(kept.voteSet, node.net.Size())
    requires node.own.Some? ==> node.own.value < node.net.Size()
    ensures r.Kept? && SameRound(r.voteSet, kept.voteSet)
  {
    var v := kept.voteSet;
    if node.own.None? || v.voteBits[node.own.value] then
      kept
    else if answer.Failed? then
      kept.(changed := false)
    else
      var hash := node.digest(answer.message);
      var added := VoteAdded(node.net, v, kept.nonce, hash, answer.oracleSig, node.own.value, node.sign);
      Kept(added.voteSet, kept.nonce, added.ok)
  }

  /** The handler writes down the nonce that is in effect. */
  function NonceNoted(p: Persisted, fnId: FnId): Persisted {
    p.(nonces := p.nonces[fnId := EffectiveNonce(p, fnId)])
  }

  /** The voteset is valid and not from an earlier round. */
  ghost predicate Accepts(node: Node, s: State, m: VoteSet) {
    IsValid(node.net, m) && m.nonce >= EffectiveNonce(s.mem, m.fnId)
  }

  ghost function VoteSetStep(node: Node, s: State, m: VoteSet, answer: FnAnswer): Outcome
    requires NodeOk(node)
  {
    if !IsValid(node.net, m) then Quiet(s) else
    var p := NonceNoted(s.mem, m.fnId);
    if EffectiveNonce(s.mem, m.fnId) > m.nonce then Quiet(s.(mem := p)) else
    // A stored voteset of the wrong size would make the handler panic; no state reached has one.
    if m.fnId in p.current && !Shaped(p.current[m.fnId], node.net.Size()) then Quiet(s.(mem := p)) else
    var taken := TakenIn(node, p, m, answer);
    Outcome(s.(mem := taken.mem), None, taken.announced)
  }

  datatype Taken = Taken(mem: Persisted, announced: bool)

  /** Reconcile a voteset with what is stored, add the node's vote, and file the result. */
  ghost function TakenIn(node: Node, p: Persisted, m: VoteSet, answer: FnAnswer): Taken
    requires NodeOk(node) && IsValid(node.net, m)
    requires m.fnId in p.current ==> Shaped(p.current[m.fnId], node.net.Size())
  {
    var kept := Reconcile(node.net, p, m);
    if kept.Refused? then Taken(p, false) else
    var c := Contribute(node, kept, answer);
    Taken(Filed(p, c.voteSet, kept.nonce), c.changed)
  }

  /*** What every state keeps ***/

  ghost predicate CurrentOk(net: Network, p: Persisted, fnId: FnId)
    requires fnId in p.current
  {
    var v := p.current[fnId];
    && IsSound(net, v)
    && v.fnId == fnId
    && v.nonce == EffectiveNonce(p, fnId)
    && (HasConverged(net, v) ==> fnId in p.nonces)
  }

  ghost predicate PreviousOk(net: Network, p: Persisted, fnId: FnId)
    requires fnId in p.prevMaj
  {
    var v := p.prevMaj[fnId];
    IsValid(net, v) && HasConverged(net, v) && v.fnId == fnId && v.nonce < EffectiveNonce(p, fnId)
  }

  ghost predicate Healthy(net: Network, p: Persisted) {
    && (forall fnId | fnId in p.current :: CurrentOk(net, p, fnId))
    && (forall fnId | fnId in p.prevMaj :: PreviousOk(net, p, fnId))
    && (forall fnId | fnId in p.nonces :: p.nonces[fnId] >= 1)
  }

  /** Every voteset is filed under the function it is about. */
  predicate OwnKeys(m: map<FnId, VoteSet>) {
    forall fnId | fnId in m :: m[fnId].fnId == fnId
  }

  /** Votesets are filed under their own names, in memory and on disk, and messages with their digests. */
  ghost predicate Named(node: Node, s: State) {
    && OwnKeys(s.mem.current) && OwnKeys(s.mem.prevMaj) && OwnKeys(s.disk.current) && OwnKeys(s.disk.prevMaj)
    && (forall fnId | fnId in s.messages :: s.messages[fnId].hash == node.digest(s.messages[fnId].payload))
  }

  ghost predicate Inv(node: Node, s: State) {
    Healthy(node.net, s.mem) && Healthy(node.net, s.disk) && Named(node, s)
  }

  /*** Runs ***/

  datatype Step =
    | CastVote(fnId: FnId, answer: FnAnswer)
    | Commit(fnId: FnId)
    | ReceiveMaj23(m: VoteSet)
    | ReceiveVoteSet(m: VoteSet, answer: FnAnswer)
    | Restart

  ghost function Apply(node: Node, s: State, step: Step): Outcome
    requires NodeOk(node)
  {
    match step
    case CastVote(fnId, answer) => VoteStep(node, s, fnId, answer)
    case Commit(fnId) => CommitStep(node, s, fnId)
    case ReceiveMaj23(m) => Maj23Step(node, s, m)
    case ReceiveVoteSet(m, answer) => VoteSetStep(node, s, m, answer)
    case Restart => Quiet(State(s.disk, map[], s.disk))
  }

  /** The step closes no round at the end of the 64-bit range. */
  ghost predicate Fits(s: State, step: Step) {
    match step
    case Commit(fnId) => RawNonce(s.mem, fnId) < MAX_INT64
    case ReceiveMaj23(m) => m.nonce < MAX_INT64
    case _ => true
  }

  /** Any step whatever keeps names in order. */
  lemma StepKeepsNamed(node: Node, s: State, step: Step)
    requires NodeOk(node) && Named(node, s)
    ensures Named(node, Apply(node, s, step).state)
  {
    match step
    case CastVote(fnId, answer) => VoteKeepsNamed(node, s, fnId, answer);
    case Commit(fnId) => CommitKeepsNamed(node, s, fnId);
    case ReceiveMaj23(m) => Maj23KeepsNamed(node, s, m);
    case ReceiveVoteSet(m, answer) => VoteSetKeepsNamed(node, s, m, answer);
    case Restart =>
  }

  lemma VoteKeepsNamed(node: Node, s: State, fnId: FnId, answer: FnAnswer)
    requires NodeOk(node) && Named(node, s)
    ensures Named(node, VoteStep(node, s, fnId, answer).state)
  {
    if answer.Answer? && node.own.Some? {
      var hash := node.digest(answer.message);
      var s1 := Noted(s, fnId, Message(answer.message, hash));
      assert Named(node, s1);
      var made := NewVoteSet(
        node.net, EffectiveNonce(s.mem, fnId), fnId, hash, answer.oracleSig, node.own.value, node.sign);
      if made.Some? { OpeningKeepsNamed(node, s1, fnId, made.value); }
    }
  }

  lemma OpeningKeepsNamed(node: Node, s: State, fnId: FnId, v: VoteSet)
    requires Named(node, s) && v.fnId == fnId
    ensures Named(node, Opened(s, fnId, v))
  {
  }

  lemma CommitKeepsNamed(node: Node, s: State, fnId: FnId)
    requires NodeOk(node) && Named(node, s)
    ensures Named(node, CommitStep(node, s, fnId).state)
  {
  }

  lemma Maj23KeepsNamed(node: Node, s: State, m: VoteSet)
    requires Named(node, s)
    ensures Named(node, Maj23Step(node, s, m).state)
  {
  }

  lemma VoteSetKeepsNamed(node: Node, s: State, m: VoteSet, answer: FnAnswer)
    requires NodeOk(node) && Named(node, s)
    ensures Named(node, VoteSetStep(node, s, m, answer).state)
  {
    var p := NonceNoted(s.mem, m.fnId);
    if Accepts(node, s, m) && (m.fnId in p.current ==> Shaped(p.current[m.fnId], node.net.Size())) {
      var v, n := TakenInFiles(node, p, m, answer);
      assert OwnKeys(Filed(p, v, n).current);
    }
  }

  lemma VoteKeepsInv(node: Node, s: State, fnId: FnId, answer: FnAnswer)
    requires NodeOk(node) && Inv(node, s)
    ensures Inv(node, VoteStep(node, s, fnId, answer).state)
  {
    VoteKeepsNamed(node, s, fnId, answer);
    if node.own.Some? && answer.Answer? && fnId in node.net.registry && answer.oracleSig.Some? {
      var hash := node.digest(answer.message);
      NewVoteSetValid(node.net, EffectiveNonce(s.mem, fnId), fnId, hash, answer.oracleSig, node.own.value, node.sign);
      var made := NewVoteSet(
        node.net, EffectiveNonce(s.mem, fnId), fnId, hash, answer.oracleSig, node.own.value, node.sign);
      SingleVoteCarries(node.net, made.value, node.own.value, hash);
      if MajOf(node.net, made.value).None? {
        ValidIsSound(node.net, made.value);
        FreshVoteKeepsHealthy(node.net, s.mem, made.value);
      }
    }
  }

  lemma FreshVoteKeepsHealthy(net: Network, p: Persisted, v: VoteSet)
    requires Healthy(net, p) && IsSound(net, v) && !HasConverged(net, v) && v.nonce == EffectiveNonce(p, v.fnId)
    ensures Healthy(net, p.(current := p.current[v.fnId := v]))
  {
    var q := p.(current := p.current[v.fnId := v]);
    forall g | g in q.current
      ensures CurrentOk(net, q, g)
    {
      assert g != v.fnId ==> CurrentOk(net, p, g);
    }
    forall g | g in q.prevMaj
      ensures PreviousOk(net, q, g)
    {
      assert PreviousOk(net, p, g);
    }
  }

  /** A round of `fnId` is closed by `v`: the nonce moves past it. */
  lemma ClosingKeepsHealthy(net: Network, p: Persisted, v: VoteSet, q: Persisted)
    requires Healthy(net, p) && IsValid(net, v) && HasConverged(net, v)
    requires v.nonce >= EffectiveNonce(p, v.fnId) && v.nonce < MAX_INT64 && v.nonce >= 1
    requires q == Persisted(p.current - {v.fnId}, p.nonces[v.fnId := Succ64(v.nonce)], p.prevMaj[v.fnId := v])
    ensures Healthy(net, q)
  {
    forall g | g in q.current
      ensures CurrentOk(net, q, g)
    {
      assert CurrentOk(net, p, g);
    }
    forall g | g in q.prevMaj
      ensures PreviousOk(net, q, g)
    {
      assert g != v.fnId ==> PreviousOk(net, p, g);
    }
  }

  lemma DroppingKeepsHealthy(net: Network, p: Persisted, fnId: FnId)
    requires Healthy(net, p)
    ensures Healthy(net, p.(current := p.current - {fnId}))
  {
    var q := p.(current := p.current - {fnId});
    forall g | g in q.current
      ensures CurrentOk(net, q, g)
    {
      assert CurrentOk(net, p, g);
    }
    forall g | g in q.prevMaj
      ensures PreviousOk(net, q, g)
    {
      assert PreviousOk(net, p, g);
    }
  }

  lemma CommitKeepsInv(node: Node, s: State, fnId: FnId)
    requires NodeOk(node) && Inv(node, s)
    requires RawNonce(s.mem, fnId) < MAX_INT64
    ensures Inv(node, CommitStep(node, s, fnId).state)
  {
    CommitKeepsNamed(node, s, fnId);
    if fnId in s.mem.current {
      assert CurrentOk(node.net, s.mem, fnId);
      var v := s.mem.current[fnId];
      if !IsValid(node.net, v) {
        DroppingKeepsHealthy(node.net, s.mem, fnId);
      } else if HasConverged(node.net, v) {
        ClosingKeepsHealthy(node.net, s.mem, v, RoundClosed(s.mem, fnId, v));
      }
    }
  }

  lemma Maj23KeepsInv(node: Node, s: State, m: VoteSet)
    requires NodeOk(node) && Inv(node, s)
    requires m.nonce < MAX_INT64
    ensures Inv(node, Maj23Step(node, s, m).state)
  {
    Maj23KeepsNamed(node, s, m);
    var p := s.mem;
    if IsValid(node.net, m) && HasConverged(node.net, m) {
      if m.nonce >= EffectiveNonce(p, m.fnId) {
        ClosingKeepsHealthy(node.net, p, m, Maj23Step(node, s, m).state.mem);
      } else if m.nonce == EffectiveNonce(p, m.fnId) - 1 && m.fnId !in p.prevMaj {
        var q := p.(prevMaj := p.prevMaj[m.fnId := m]);
        forall g | g in q.current
          ensures CurrentOk(node.net, q, g)
        {
          assert CurrentOk(node.net, p, g);
        }
        forall g | g in q.prevMaj
          ensures PreviousOk(node.net, q, g)
        {
          assert g != m.fnId ==> PreviousOk(node.net, p, g);
        }
      }
    }
  }

  /** Filing a voteset at or past the nonce keeps everything in order. */
  lemma FilingKeepsHealthy(net: Network, p: Persisted, v: VoteSet)
    requires Healthy(net, p) && IsSound(net, v) && v.nonce >= EffectiveNonce(p, v.fnId)
    ensures Healthy(net, Filed(p, v, v.nonce))
  {
    var q := Filed(p, v, v.nonce);
    forall g | g in q.current
      ensures CurrentOk(net, q, g)
    {
      assert g != v.fnId ==> CurrentOk(net, p, g);
    }
    forall g | g in q.prevMaj
      ensures PreviousOk(net, q, g)
    {
      assert PreviousOk(net, p, g);
    }
    forall g | g in q.nonces
      ensures q.nonces[g] >= 1
    {
    }
  }

  /** Writing down the nonce that is in effect anyway changes nothing. */
  lemma NonceFilingKeepsHealthy(net: Network, p: Persisted, fnId: FnId)
    requires Healthy(net, p)
    ensures Healthy(net, NonceNoted(p, fnId))
  {
    var q := NonceNoted(p, fnId);
    forall g | g in q.current
      ensures CurrentOk(net, q, g)
    {
      assert CurrentOk(net, p, g);
    }
    forall g | g in q.prevMaj
      ensures PreviousOk(net, q, g)
    {
      assert PreviousOk(net, p, g);
    }
  }

  /**
   * What is kept is about the same function and not from an earlier round, and valid if what was stored is.
   * Merging never fails.
   */
  lemma KeptIsValid(net: Network, p: Persisted, m: VoteSet)
    requires Healthy(net, p) && IsValid(net, m) && m.nonce >= EffectiveNonce(p, m.fnId)
    ensures m.fnId in p.current ==> CurrentOk(net, p, m.fnId)
    ensures var kept := Reconcile(net, p, m);
      kept.Kept? ==>
        && IsSound(net, kept.voteSet) && kept.voteSet.fnId == m.fnId
        && ((m.fnId in p.current ==> IsValid(net, p.current[m.fnId])) ==> IsValid(net, kept.voteSet))
        && kept.voteSet.nonce == kept.nonce >= EffectiveNonce(p, m.fnId)
        && (m.fnId in p.current && !kept.changed ==> kept.voteSet == p.current[m.fnId])
    ensures m.fnId in p.current ==> Reconcile(net, p, m).Kept?
  {
    ValidIsSound(net, m);
    if m.fnId in p.current {
      var v := p.current[m.fnId];
      assert CurrentOk(net, p, m.fnId);
      ValidVoteSetsMerge(net, v, m);
      if SameRound(v, m) {
        MergeIsJoin(net, v, m);
      }
    }
  }

  lemma VoteSetKeepsInv(node: Node, s: State, m: VoteSet, answer: FnAnswer)
    requires NodeOk(node) && Inv(node, s)
    ensures Inv(node, VoteSetStep(node, s, m, answer).state)
  {
    VoteSetKeepsNamed(node, s, m, answer);
    NonceFilingKeepsHealthy(node.net, s.mem, m.fnId);
    if Accepts(node, s, m) {
      AcceptedStep(node, s, m, answer);
      var p := NonceNoted(s.mem, m.fnId);
      KeptIsValid(node.net, p, m);
      var kept := Reconcile(node.net, p, m);
      if kept.Kept? {
        ContributionIsValid(node, kept, answer);
        FilingKeepsHealthy(node.net, p, Contribute(node, kept, answer).voteSet);
      }
    }
  }

  /** What the handler does with a voteset it accepts. */
  lemma AcceptedTakes(node: Node, s: State, m: VoteSet, answer: FnAnswer)
    requires NodeOk(node) && Accepts(node, s, m)
    requires m.fnId in s.mem.current ==> Shaped(s.mem.current[m.fnId], node.net.Size())
    ensures var p := NonceNoted(s.mem, m.fnId);
      VoteSetStep(node, s, m, answer) ==
      Outcome(s.(mem := TakenIn(node, p, m, answer).mem), None, TakenIn(node, p, m, answer).announced)
  {
  }

  /** In a healthy state it is taken in. */
  lemma AcceptedStep(node: Node, s: State, m: VoteSet, answer: FnAnswer)
    requires NodeOk(node) && Healthy(node.net, s.mem) && Accepts(node, s, m)
    ensures var p := NonceNoted(s.mem, m.fnId);
      && Healthy(node.net, p) && (m.fnId in p.current ==> Shaped(p.current[m.fnId], node.net.Size()))
      && EffectiveNonce(p, m.fnId) == EffectiveNonce(s.mem, m.fnId)
      && VoteSetStep(node, s, m, answer).state.mem == TakenIn(node, p, m, answer).mem
      && VoteSetStep(node, s, m, answer).announced == TakenIn(node, p, m, answer).announced
  {
    NonceFilingKeepsHealthy(node.net, s.mem, m.fnId);
    if m.fnId in s.mem.current { assert CurrentOk(node.net, s.mem, m.fnId); }
    AcceptedTakes(node, s, m, answer);
  }

  /** The handler leaves other functions alone. */
  lemma OthersUntouched(node: Node, s: State, m: VoteSet, answer: FnAnswer, fnId: FnId)
    requires NodeOk(node) && OwnKeys(s.mem.current) && fnId != m.fnId
    ensures var t := VoteSetStep(node, s, m, answer).state.mem;
      && (fnId in t.current <==> fnId in s.mem.current)
      && (fnId in t.current ==> t.current[fnId] == s.mem.current[fnId])
      && EffectiveNonce(t, fnId) == EffectiveNonce(s.mem, fnId)
  {
    var p := NonceNoted(s.mem, m.fnId);
    if Accepts(node, s, m) && (m.fnId in p.current ==> Shaped(p.current[m.fnId], node.net.Size())) {
      var v, n := TakenInFiles(node, p, m, answer);
    }
  }

  /** Taking in a voteset changes the entries of its function at most. */
  lemma TakenInFiles(node: Node, p: Persisted, m: VoteSet, answer: FnAnswer) returns (v: VoteSet, n: int64)
    requires NodeOk(node) && IsValid(node.net, m) && OwnKeys(p.current)
    requires m.fnId in p.current ==> Shaped(p.current[m.fnId], node.net.Size())
    ensures v.fnId == m.fnId
    ensures TakenIn(node, p, m, answer).mem == p || TakenIn(node, p, m, answer).mem == Filed(p, v, n)
  {
    v, n := m, m.nonce;
    var kept := Reconcile(node.net, p, m);
    if kept.Kept? {
      v, n := Contribute(node, kept, answer).voteSet, kept.nonce;
    }
  }

  lemma ContributionIsValid(node: Node, kept: Kept, answer: FnAnswer)
    requires NodeOk(node) && kept.Kept? && IsSound(node.net, kept.voteSet) && kept.voteSet.nonce == kept.nonce
    ensures IsSound(node.net, Contribute(node, kept, answer).voteSet)
    ensures IsValid(node.net, kept.voteSet) && (answer.Answer? ==> answer.oracleSig.Some?) ==>
              IsValid(node.net, Contribute(node, kept, answer).voteSet)
    ensures var r := Contribute(node, kept, answer);
      r == kept || r == kept.(changed := false) ||
      (r.changed && NumberOfVotes(r.voteSet) == NumberOfVotes(kept.voteSet) + 1 && r.voteSet.power > kept.voteSet.power)
  {
    if node.own.Some? && !kept.voteSet.voteBits[node.own.value] && answer.Answer? {
      var hash := node.digest(answer.message);
      AddVoteKeepsValid(node.net, kept.voteSet, hash, answer.oracleSig, node.own.value, node.sign);
    }
  }

  lemma StepKeepsInv(node: Node, s: State, step: Step)
    requires NodeOk(node) && Inv(node, s) && Fits(s, step)
    ensures Inv(node, Apply(node, s, step).state)
  {
    match step
    case CastVote(fnId, answer) => VoteKeepsInv(node, s, fnId, answer);
    case Commit(fnId) => CommitKeepsInv(node, s, fnId);
    case ReceiveMaj23(m) => Maj23KeepsInv(node, s, m);
    case ReceiveVoteSet(m, answer) => VoteSetKeepsInv(node, s, m, answer);
    case Restart =>
  }

  /** An interleaving of steps, from the first start on. */
  ghost predicate IsRun(node: Node, states: seq<State>, steps: seq<Step>)
    requires NodeOk(node)
  {
    && |states| == |steps| + 1 && states[0] == Initial()
    && (forall i | 0 <= i < |steps| :: states[i + 1] == Apply(node, states[i], steps[i]).state)
  }

  /** A run that stays within the 64-bit range of nonces. */
  ghost predicate IsFitRun(node: Node, states: seq<State>, steps: seq<Step>)
    requires NodeOk(node)
  {
    IsRun(node, states, steps) && forall i | 0 <= i < |steps| :: Fits(states[i], steps[i])
  }

  lemma {:induction false} RunKeepsNamed(node: Node, states: seq<State>, steps: seq<Step>, i: nat)
    requires NodeOk(node) && IsRun(node, states, steps) && i <= |steps|
    ensures Named(node, states[i])
  {
    if i > 0 {
      RunKeepsNamed(node, states, steps, i - 1);
      StepKeepsNamed(node, states[i - 1], steps[i - 1]);
    }
  }

  /** The reactor invariant holds in every state of every run. */
  lemma {:induction false} RunKeepsInv(node: Node, states: seq<State>, steps: seq<Step>, i: nat)
    requires NodeOk(node) && IsFitRun(node, states, steps) && i <= |steps|
    ensures Inv(node, states[i])
  {
    if i > 0 {
      RunKeepsInv(node, states, steps, i - 1);
      StepKeepsInv(node, states[i - 1], steps[i - 1]);
    }
  }

  /** When the voteset handler asks the function, it gets no answer without a signature. */
  predicate Signed(step: Step) {
    step.ReceiveVoteSet? && step.answer.Answer? ==> step.answer.oracleSig.Some?
  }

  ghost predicate AllValid(net: Network, p: Persisted) {
    forall fnId | fnId in p.current :: IsValid(net, p.current[fnId])
  }

  lemma StepKeepsValid(node: Node, s: State, step: Step)
    requires NodeOk(node) && Inv(node, s) && Signed(step) && AllValid(node.net, s.mem) && AllValid(node.net, s.disk)
    ensures AllValid(node.net, Apply(node, s, step).state.mem) && AllValid(node.net, Apply(node, s, step).state.disk)
  {
    match step
    case CastVote(fnId, answer) => VotingKeepsValid(node, s, fnId, answer);
    case Commit(fnId) => CommittingKeepsValid(node, s, fnId);
    case ReceiveMaj23(m) => ClosingKeepsValid(node, s, m);
    case ReceiveVoteSet(m, answer) => ReceivingKeepsValid(node, s, m, answer);
    case Restart =>
  }

  lemma VotingKeepsValid(node: Node, s: State, fnId: FnId, answer: FnAnswer)
    requires NodeOk(node) && AllValid(node.net, s.mem) && AllValid(node.net, s.disk)
    ensures var t := VoteStep(node, s, fnId, answer).state; AllValid(node.net, t.mem) && AllValid(node.net, t.disk)
  {
    if node.own.Some? && answer.Answer? && fnId in node.net.registry && answer.oracleSig.Some? {
      var nonce, hash := EffectiveNonce(s.mem, fnId), node.digest(answer.message);
      NewVoteSetValid(node.net, nonce, fnId, hash, answer.oracleSig, node.own.value, node.sign);
    }
  }

  lemma ClosingKeepsValid(node: Node, s: State, m: VoteSet)
    requires AllValid(node.net, s.mem) && AllValid(node.net, s.disk)
    ensures var t := Maj23Step(node, s, m).state; AllValid(node.net, t.mem) && AllValid(node.net, t.disk)
  {
  }

  lemma CommittingKeepsValid(node: Node, s: State, fnId: FnId)
    requires NodeOk(node) && AllValid(node.net, s.mem) && AllValid(node.net, s.disk)
    ensures var t := CommitStep(node, s, fnId).state; AllValid(node.net, t.mem) && AllValid(node.net, t.disk)
  {
  }

  lemma ReceivingKeepsValid(node: Node, s: State, m: VoteSet, answer: FnAnswer)
    requires NodeOk(node) && Inv(node, s) && Signed(ReceiveVoteSet(m, answer)) && AllValid(node.net, s.mem)
    ensures AllValid(node.net, VoteSetStep(node, s, m, answer).state.mem)
    ensures VoteSetStep(node, s, m, answer).state.disk == s.disk
  {
    if Accepts(node, s, m) {
      AcceptedStep(node, s, m, answer);
      var p := NonceNoted(s.mem, m.fnId);
      KeptIsValid(node.net, p, m);
      var kept := Reconcile(node.net, p, m);
      if kept.Kept? { ContributionIsValid(node, kept, answer); }
    }
  }

  /** While no function answers the voteset handler without a signature, every stored voteset is valid. */
  lemma {:induction false} RunKeepsValid(node: Node, states: seq<State>, steps: seq<Step>, i: nat)
    requires NodeOk(node) && IsFitRun(node, states, steps) && i <= |steps|
    requires forall k | 0 <= k < i :: Signed(steps[k])
    ensures AllValid(node.net, states[i].mem) && AllValid(node.net, states[i].disk)
  {
    if i > 0 {
      RunKeepsValid(node, states, steps, i - 1);
      RunKeepsInv(node, states, steps, i - 1);
      StepKeepsValid(node, states[i - 1], steps[i - 1]);
    }
  }

  /*** Nonces ***/

  /** The voteset that a step files as the majority of its round, moving the nonce past it. */
  ghost function ClosingVoteSet(node: Node, s: State, step: Step): Option<VoteSet>
    requires NodeOk(node)
  {
    match step
    case Commit(fnId) =>
      if && fnId in node.net.registry && fnId in s.mem.current
         && IsValid(node.net, s.mem.current[fnId]) && HasConverged(node.net, s.mem.current[fnId])
         && !Decide(node, s, fnId, s.mem.current[fnId]).Mismatch?
      then Some(s.mem.current[fnId]) else None
    case ReceiveMaj23(m) =>
      if IsValid(node.net, m) && HasConverged(node.net, m) && m.nonce >= EffectiveNonce(s.mem, m.fnId)
      then Some(m) else None
    case _ => None
  }

  /** No step but a restart ever lowers a nonce, except by wrapping around at the end of the 64-bit range. */
  lemma NonceNeverDecreases(node: Node, s: State, step: Step, fnId: FnId)
    requires NodeOk(node) && Inv(node, s) && step != Restart
    ensures var closing := ClosingVoteSet(node, s, step);
      EffectiveNonce(Apply(node, s, step).state.mem, fnId) < EffectiveNonce(s.mem, fnId)
      <==> closing.Some? && closing.value.fnId == fnId && closing.value.nonce == MAX_INT64
  {
    match step
    case CastVote(g, answer) => VoteNonce(node, s, g, answer, fnId);
    case Commit(g) => CommitNonce(node, s, g, fnId);
    case ReceiveMaj23(m) => Maj23Nonce(node, s, m, fnId);
    case ReceiveVoteSet(m, answer) => VoteSetNonce(node, s, m, answer, fnId);
  }

  lemma VoteNonce(node: Node, s: State, g: FnId, answer: FnAnswer, fnId: FnId)
    requires NodeOk(node)
    ensures EffectiveNonce(VoteStep(node, s, g, answer).state.mem, fnId) == EffectiveNonce(s.mem, fnId)
  {
  }

  lemma Maj23Nonce(node: Node, s: State, m: VoteSet, fnId: FnId)
    requires NodeOk(node) && Inv(node, s)
    ensures var closing := ClosingVoteSet(node, s, ReceiveMaj23(m));
      EffectiveNonce(Maj23Step(node, s, m).state.mem, fnId) < EffectiveNonce(s.mem, fnId)
      <==> closing.Some? && closing.value.fnId == fnId && closing.value.nonce == MAX_INT64
  {
  }

  lemma CommitNonce(node: Node, s: State, g: FnId, fnId: FnId)
    requires NodeOk(node) && Inv(node, s)
    ensures var closing := ClosingVoteSet(node, s, Commit(g));
      EffectiveNonce(CommitStep(node, s, g).state.mem, fnId) < EffectiveNonce(s.mem, fnId)
      <==> closing.Some? && closing.value.fnId == fnId && closing.value.nonce == MAX_INT64
  {
    if g in s.mem.current {
      assert CurrentOk(node.net, s.mem, g);
    }
  }

  lemma VoteSetNonce(node: Node, s: State, m: VoteSet, answer: FnAnswer, fnId: FnId)
    requires NodeOk(node) && Inv(node, s)
    ensures EffectiveNonce(VoteSetStep(node, s, m, answer).state.mem, fnId) >= EffectiveNonce(s.mem, fnId)
  {
    if fnId != m.fnId {
      OthersUntouched(node, s, m, answer, fnId);
    } else if Accepts(node, s, m) {
      AcceptedStep(node, s, m, answer);
      KeptIsValid(node.net, NonceNoted(s.mem, m.fnId), m);
    }
  }

  /** Between two restarts the nonces never go down. */
  lemma {:induction false} NoncesMonotone(node: Node, states: seq<State>, steps: seq<Step>, i: nat, j: nat, fnId: FnId)
    requires NodeOk(node) && IsFitRun(node, states, steps) && i <= j <= |steps|
    requires Restart !in steps[i..j]
    ensures EffectiveNonce(states[i].mem, fnId) <= EffectiveNonce(states[j].mem, fnId)
  {
    if i < j {
      assert steps[i..j - 1] <= steps[i..j];
      NoncesMonotone(node, states, steps, i, j - 1, fnId);
      assert steps[j - 1] == steps[i..j][j - 1 - i];
      RunNonceSteps(node, states, steps, fnId);
      assert NonceStep(states[j - 1], states[j], steps[j - 1], fnId);
    }
  }

  /** A step leaves the state saved, or the disk as it was; then only the voteset handler changes nonces. */
  predicate SavesOrKeeps(s: State, t: State, step: Step) {
    t.disk == t.mem || (t.disk == s.disk && (t.mem.nonces == s.mem.nonces || step.ReceiveVoteSet?))
  }

  lemma StepSaves(node: Node, s: State, step: Step)
    requires NodeOk(node) && Inv(node, s)
    ensures SavesOrKeeps(s, Apply(node, s, step).state, step)
  {
    match step
    case CastVote(fnId, answer) => VoteSaves(node, s, fnId, answer);
    case Commit(fnId) => CommitSaves(node, s, fnId);
    case ReceiveMaj23(_) =>
    case ReceiveVoteSet(m, answer) => VoteSetSaves(node, s, m, answer);
    case Restart =>
  }

  lemma VoteSaves(node: Node, s: State, fnId: FnId, answer: FnAnswer)
    requires NodeOk(node)
    ensures SavesOrKeeps(s, VoteStep(node, s, fnId, answer).state, CastVote(fnId, answer))
  {
  }

  lemma VoteSetSaves(node: Node, s: State, m: VoteSet, answer: FnAnswer)
    requires NodeOk(node)
    ensures VoteSetStep(node, s, m, answer).state.disk == s.disk
  {
  }

  lemma CommitSaves(node: Node, s: State, fnId: FnId)
    requires NodeOk(node)
    ensures SavesOrKeeps(s, CommitStep(node, s, fnId).state, Commit(fnId))
  {
  }

  /** No step but a restart lowers a nonce, while rounds are closed within the 64-bit range. */
  lemma FitStepNonce(node: Node, s: State, step: Step, fnId: FnId)
    requires NodeOk(node) && Inv(node, s) && Fits(s, step) && step != Restart
    ensures EffectiveNonce(s.mem, fnId) <= EffectiveNonce(Apply(node, s, step).state.mem, fnId)
  {
    NonceNeverDecreases(node, s, step, fnId);
    if step.Commit? && step.fnId in s.mem.current {
      assert CurrentOk(node.net, s.mem, step.fnId);
    }
  }

  /** A step of a run, as far as the nonce of a function goes. */
  predicate NonceStep(s: State, t: State, step: Step, fnId: FnId) {
    && SavesOrKeeps(s, t, step)
    && (step != Restart ==> EffectiveNonce(s.mem, fnId) <= EffectiveNonce(t.mem, fnId))
    && (step == Restart ==> t.mem == t.disk == s.disk)
  }

  ghost predicate NonceSteps(states: seq<State>, steps: seq<Step>, fnId: FnId) {
    && |states| == |steps| + 1 && states[0] == Initial()
    && forall i | 0 <= i < |steps| :: NonceStep(states[i], states[i + 1], steps[i], fnId)
  }

  lemma RunNonceSteps(node: Node, states: seq<State>, steps: seq<Step>, fnId: FnId)
    requires NodeOk(node) && IsFitRun(node, states, steps)
    ensures NonceSteps(states, steps, fnId)
  {
    forall i | 0 <= i < |steps|
      ensures NonceStep(states[i], states[i + 1], steps[i], fnId)
    {
      RunKeepsInv(node, states, steps, i);
      StepSaves(node, states[i], steps[i]);
      if steps[i] != Restart { FitStepNonce(node, states[i], steps[i], fnId); }
    }
  }

  /** Step j is a voteset message that raises the nonce, and nothing is saved from then until state k. */
  ghost predicate RaisesUnsaved(states: seq<State>, steps: seq<Step>, j: nat, k: nat, fnId: FnId) {
    && j < k <= |steps| < |states| && steps[j].ReceiveVoteSet?
    && EffectiveNonce(states[j].mem, fnId) < EffectiveNonce(states[j + 1].mem, fnId)
    && forall i | j < i <= k :: states[i].disk != states[i].mem
  }

  ghost predicate NonceUnsaved(states: seq<State>, steps: seq<Step>, k: nat, fnId: FnId) {
    exists j: nat :: RaisesUnsaved(states, steps, j, k, fnId)
  }

  /**
   * A restart takes a nonce back exactly when a voteset message has raised it and nothing was saved since:
   * the voteset handler does not save what it changes.
   */
  lemma RestartForgetsRound(node: Node, states: seq<State>, steps: seq<Step>, k: nat, fnId: FnId)
    requires NodeOk(node) && IsFitRun(node, states, steps) && k <= |steps|
    ensures EffectiveNonce(Apply(node, states[k], Restart).state.mem, fnId) < EffectiveNonce(states[k].mem, fnId)
       <==> NonceUnsaved(states, steps, k, fnId)
  {
    RunNonceSteps(node, states, steps, fnId);
    DiskBehind(states, steps, k, fnId);
  }

  /** The saved nonce is never ahead, and exactly then behind. */
  lemma {:induction false} DiskBehind(states: seq<State>, steps: seq<Step>, k: nat, fnId: FnId)
    requires NonceSteps(states, steps, fnId) && k <= |steps|
    ensures EffectiveNonce(states[k].disk, fnId) <= EffectiveNonce(states[k].mem, fnId)
    ensures EffectiveNonce(states[k].disk, fnId) < EffectiveNonce(states[k].mem, fnId)
       <==> NonceUnsaved(states, steps, k, fnId)
  {
    if k > 0 {
      DiskBehind(states, steps, k - 1, fnId);
      var s, t := states[k - 1], states[k];
      assert NonceStep(s, t, steps[k - 1], fnId);
      if t.disk != t.mem {
        if EffectiveNonce(s.mem, fnId) < EffectiveNonce(t.mem, fnId) {
          assert RaisesUnsaved(states, steps, k - 1, k, fnId);
        } else {
          UnsavedStretch(states, steps, k, fnId);
        }
      }
    }
  }

  /** A step that neither saves nor raises the nonce leaves the question where it was. */
  lemma UnsavedStretch(states: seq<State>, steps: seq<Step>, k: nat, fnId: FnId)
    requires 0 < k <= |steps| < |states| && states[k].disk != states[k].mem
    requires EffectiveNonce(states[k].mem, fnId) <= EffectiveNonce(states[k - 1].mem, fnId)
    ensures NonceUnsaved(states, steps, k, fnId) <==> NonceUnsaved(states, steps, k - 1, fnId)
  {
    if NonceUnsaved(states, steps, k - 1, fnId) {
      var j: nat :| RaisesUnsaved(states, steps, j, k - 1, fnId);
      assert RaisesUnsaved(states, steps, j, k, fnId);
    }
    if NonceUnsaved(states, steps, k, fnId) {
      var j: nat :| RaisesUnsaved(states, steps, j, k, fnId);
      assert RaisesUnsaved(states, steps, j, k - 1, fnId);
    }
  }

  /** It happens: a converged voteset of a later round takes a new node to its nonce, a restart back to the first. */
  lemma RoundForgotten(node: Node, m: VoteSet, answer: FnAnswer)
    requires NodeOk(node) && IsValid(node.net, m) && HasConverged(node.net, m) && m.nonce > 1
    ensures var s := Apply(node, Initial(), ReceiveVoteSet(m, answer)).state;
      && EffectiveNonce(s.mem, m.fnId) == m.nonce
      && EffectiveNonce(Apply(node, s, Restart).state.mem, m.fnId) == 1
  {
  }

  /*** Submissions ***/

  /**
   * A submission is backed by a valid voteset that carries its round: the threshold of voting power
   * voted for the digest, and signatures stand exactly where those voters do. The payload hashes to
   * that digest exactly when the digest is not the empty string, which no message hashes to; for the empty
   * string the payload is empty too.
   */
  ghost predicate SubmissionSafe(node: Node, sub: Submission) {
    && IsValid(node.net, sub.backing)
    && sub.backing.fnId == sub.fnId && sub.fnId in node.net.registry
    && MajOf(node.net, sub.backing).Some?
    && var d := MajOf(node.net, sub.backing).value.hash;
    && Reached(node.net.threshold, DigestPower(node.net, sub.backing.hashes, d), node.net.validators)
    && (node.digest(sub.payload) == d <==> d != []) && (d == [] ==> sub.payload == [])
    && |sub.signatures| == node.net.Size()
    && (forall i | 0 <= i < node.net.Size() :: sub.signatures[i].Some? <==> sub.backing.hashes[i] == Some(d))
    && (forall i | 0 <= i < node.net.Size() ::
          sub.signatures[i] == if sub.backing.hashes[i] == Some(d) then sub.backing.oracleSigs[i] else None)
  }

  lemma SubmissionsAreSafe(node: Node, s: State, step: Step)
    requires NodeOk(node) && Named(node, s)
    ensures var sub := Apply(node, s, step).submitted; sub.Some? ==> SubmissionSafe(node, sub.value)
  {
    var sub := Apply(node, s, step).submitted;
    if sub.Some? {
      var v := sub.value.backing;
      match step {
        case CastVote(fnId, answer) =>
          var nonce := EffectiveNonce(s.mem, fnId);
          NewVoteSetValid(
            node.net, nonce, fnId, node.digest(answer.message), answer.oracleSig, node.own.value, node.sign);
        case Commit(fnId) =>
      }
      forall i | 0 <= i < node.net.Size()
        ensures sub.value.signatures[i].Some? <==> v.hashes[i] == Some(MajOf(node.net, v).value.hash)
        ensures sub.value.signatures[i] ==
                if v.hashes[i] == Some(MajOf(node.net, v).value.hash) then v.oracleSigs[i] else None
      {
        SignaturesFromVoters(node.net, v, i);
      }
    }
  }

  /** Every submission of every run is safe. */
  lemma RunSubmissionsAreSafe(node: Node, states: seq<State>, steps: seq<Step>, i: nat)
    requires NodeOk(node) && IsRun(node, states, steps) && i < |steps|
    ensures var sub := Apply(node, states[i], steps[i]).submitted; sub.Some? ==> SubmissionSafe(node, sub.value)
  {
    RunKeepsNamed(node, states, steps, i);
    SubmissionsAreSafe(node, states[i], steps[i]);
  }

  ghost predicate SubmitsAt(node: Node, states: seq<State>, steps: seq<Step>, i: nat, sub: Submission)
    requires NodeOk(node)
  {
    && IsRun(node, states, steps)
    && i < |steps| && Apply(node, states[i], steps[i]).submitted == Some(sub)
  }

  /** Some run of the node makes this submission. */
  ghost predicate EverSubmits(node: Node, sub: Submission)
    requires NodeOk(node)
  {
    exists states, steps, i :: SubmitsAt(node, states, steps, i, sub)
  }

  /**
   * Whatever two nodes of a cluster ever submit for one round of one function carries the same digest,
   * or validators with more than a third of the power signed twice.
   */
  lemma SubmissionsAgree(a: Node, x: Submission, b: Node, y: Submission)
    requires NodeOk(a) && NodeOk(b) && a.net == b.net && EverSubmits(a, x) && EverSubmits(b, y)
    ensures SubmissionSafe(a, x) && SubmissionSafe(b, y)
    ensures x.fnId == y.fnId && x.backing.nonce == y.backing.nonce ==> AgreeOrAccuse(a.net, x.backing, y.backing)
  {
    var states, steps, i :| SubmitsAt(a, states, steps, i, x);
    RunSubmissionsAreSafe(a, states, steps, i);
    var states', steps', j :| SubmitsAt(b, states', steps', j, y);
    RunSubmissionsAreSafe(b, states', steps', j);
    if x.fnId == y.fnId && x.backing.nonce == y.backing.nonce {
      AccountableAgreement(a.net, x.backing, y.backing);
    }
  }

  lemma SubmitterIsElected(node: Node, s: State, fnId: FnId)
    requires NodeOk(node) && Inv(node, s) && CommitStep(node, s, fnId).submitted.Some?
    ensures fnId in s.mem.current && IsValid(node.net, s.mem.current[fnId])
    ensures node.own.Some? && MajOf(node.net, s.mem.current[fnId]).Some? && s.mem.current[fnId].nonce >= 1
    ensures var agg := MajOf(node.net, s.mem.current[fnId]).value;
      AgreeCount(agg) > 0 && Elected(agg, node.own.value, s.mem.current[fnId].nonce)
  {
    assert CurrentOk(node.net, s.mem, fnId);
  }

  /** Of all nodes that commit one and the same voteset, a single validator submits it. */
  lemma OneNodeSubmits(a: Node, s: State, b: Node, t: State, fnId: FnId)
    requires NodeOk(a) && Inv(a, s) && NodeOk(b) && Inv(b, t) && a.net == b.net
    requires Apply(a, s, Commit(fnId)).submitted.Some? && Apply(b, t, Commit(fnId)).submitted.Some?
    requires s.mem.current[fnId] == t.mem.current[fnId]
    ensures a.own == b.own
  {
    SubmitterIsElected(a, s, fnId);
    SubmitterIsElected(b, t, fnId);
    OneSubmitter(MajOf(a.net, s.mem.current[fnId]).value, s.mem.current[fnId].nonce);
  }

  /*** Once a round ***/

  /** The node's own vote reaches the threshold. */
  predicate Alone(node: Node)
    requires node.own.Some? ==> node.own.value < node.net.Size()
  {
    node.own.Some? && Reached(node.net.threshold, node.net.validators[node.own.value].power, node.net.validators)
  }

  /** Only such a node submits on its own vote; it does so every time it votes, and stays in the round. */
  lemma VoteSubmitsAlone(node: Node, s: State, fnId: FnId, answer: FnAnswer)
    requires NodeOk(node)
    ensures VoteStep(node, s, fnId, answer).submitted.Some? <==>
            Alone(node) && answer.Answer? && answer.oracleSig.Some? && fnId in node.net.registry
    ensures var r := VoteStep(node, s, fnId, answer);
      r.submitted.Some? ==>
        && r.state.mem == s.mem && r.submitted.value.backing.nonce == EffectiveNonce(s.mem, fnId)
        && r.submitted.value.fnId == fnId && r.submitted.value.payload == answer.message
  {
    if node.own.Some? && answer.Answer? && fnId in node.net.registry && answer.oracleSig.Some? {
      var nonce, hash, i := EffectiveNonce(s.mem, fnId), node.digest(answer.message), node.own.value;
      NewVoteSetValid(node.net, nonce, fnId, hash, answer.oracleSig, i, node.sign);
      var made := NewVoteSet(node.net, nonce, fnId, hash, answer.oracleSig, i, node.sign).value;
      SingleVoteCarries(node.net, made, i, hash);
    }
  }

  /** A submission of any other node closes its round, for good. */
  lemma SubmittingCloses(node: Node, s: State, step: Step)
    requires NodeOk(node) && Inv(node, s) && Fits(s, step) && !Alone(node) && Apply(node, s, step).submitted.Some?
    ensures var x := Apply(node, s, step).submitted.value;
      var t := Apply(node, s, step).state;
      && x.backing.nonce == EffectiveNonce(s.mem, x.fnId) < EffectiveNonce(t.mem, x.fnId) && t.disk == t.mem
  {
    match step
    case CastVote(fnId, answer) => VoteSubmitsAlone(node, s, fnId, answer);
    case Commit(fnId) =>
      assert CurrentOk(node.net, s.mem, fnId);
      ClosingFiles(node, s, step);
  }

  /** What is saved never goes back. */
  lemma {:induction false} SavedNonceGrows(states: seq<State>, steps: seq<Step>, i: nat, j: nat, fnId: FnId)
    requires NonceSteps(states, steps, fnId) && i <= j <= |steps|
    ensures EffectiveNonce(states[i].disk, fnId) <= EffectiveNonce(states[j].disk, fnId)
  {
    if i < j {
      SavedNonceGrows(states, steps, i, j - 1, fnId);
      DiskBehind(states, steps, j - 1, fnId);
      assert NonceStep(states[j - 1], states[j], steps[j - 1], fnId);
    }
  }

  /** In every run, restarts included, a node that is not alone submits at most once a round. */
  lemma SubmissionsAscend(
    node: Node, states: seq<State>, steps: seq<Step>, i: nat, x: Submission, j: nat, y: Submission)
    requires NodeOk(node) && !Alone(node) && IsFitRun(node, states, steps)
    requires SubmitsAt(node, states, steps, i, x) && SubmitsAt(node, states, steps, j, y) && i < j && x.fnId == y.fnId
    ensures x.backing.nonce < y.backing.nonce
  {
    RunKeepsInv(node, states, steps, i);
    RunKeepsInv(node, states, steps, j);
    SubmittingCloses(node, states[i], steps[i]);
    SubmittingCloses(node, states[j], steps[j]);
    RunNonceSteps(node, states, steps, x.fnId);
    SavedNonceGrows(states, steps, i + 1, j, x.fnId);
    DiskBehind(states, steps, j, x.fnId);
  }

  /** A majority voteset is passed on exactly when it moves the node past its round, which is then saved. */
  lemma PassingOnMoves(node: Node, s: State, m: VoteSet)
    requires NodeOk(node) && m.nonce < MAX_INT64
    ensures var r := Maj23Step(node, s, m);
      && (r.announced <==> EffectiveNonce(s.mem, m.fnId) < EffectiveNonce(r.state.mem, m.fnId))
      && (r.announced ==> EffectiveNonce(r.state.mem, m.fnId) == m.nonce + 1 && r.state.disk == r.state.mem)
      && (r.announced ==> EffectiveNonce(s.mem, m.fnId) <= m.nonce)
  {
  }

  ghost predicate PassesOn(node: Node, states: seq<State>, steps: seq<Step>, i: nat, m: VoteSet)
    requires NodeOk(node)
  {
    && i < |steps| && i < |states| && steps[i] == ReceiveMaj23(m)
    && Apply(node, states[i], steps[i]).announced
  }

  /**
   * In every run, restarts included, the majority votesets of one function that a node passes on are of ascending
   * rounds; so it passes on one for each round, and none twice.
   */
  lemma PassedOnAscend(node: Node, states: seq<State>, steps: seq<Step>, i: nat, m: VoteSet, j: nat, m': VoteSet)
    requires NodeOk(node) && IsFitRun(node, states, steps) && i < j && m.fnId == m'.fnId
    requires PassesOn(node, states, steps, i, m) && PassesOn(node, states, steps, j, m')
    ensures m.nonce < m'.nonce
  {
    assert Fits(states[i], steps[i]) && Fits(states[j], steps[j]);
    PassingOnMoves(node, states[i], m);
    PassingOnMoves(node, states[j], m');
    RunNonceSteps(node, states, steps, m.fnId);
    SavedNonceGrows(states, steps, i + 1, j, m.fnId);
    DiskBehind(states, steps, j, m.fnId);
  }

  /**
   * Committing a carried round leaves everything as it is exactly when it is the node's turn and it does not
   * hold the message agreed on. A node that voted through the voteset handler only, or was restarted since,
   * holds none: in its turn it never closes the round by itself, unless the empty string won, for which it
   * submits an empty payload.
   */
  lemma CommitStalls(node: Node, s: State, fnId: FnId)
    requires NodeOk(node) && Inv(node, s) && fnId in node.net.registry && fnId in s.mem.current
    requires IsValid(node.net, s.mem.current[fnId]) && MajOf(node.net, s.mem.current[fnId]).Some?
    ensures var v := s.mem.current[fnId];
      var agg := MajOf(node.net, v).value;
      var turn := node.own.Some? && IsSubmitter(agg, node.own.value, v.nonce);
      var r := CommitStep(node, s, fnId);
      && (r.state == s <==> turn && MessageFor(s.messages, fnId).hash != agg.hash)
      && (turn && fnId !in s.messages ==>
            if agg.hash != [] then r == Quiet(s) else r.submitted.Some? && r.submitted.value.payload == [])
  {
    assert CurrentOk(node.net, s.mem, fnId);
    CarriedImpliesConverged(node.net, s.mem.current[fnId]);
  }

  /*** Catching up ***/

  /**
   * A node that closes a round hands it on: any other node that receives the majority voteset it filed
   * is afterwards at least as far, and neither forgets it in a restart.
   */
  lemma ClosedRoundsSpread(a: Node, s: State, step: Step, b: Node, t: State)
    requires NodeOk(a) && Inv(a, s) && Fits(s, step) && NodeOk(b) && Inv(b, t) && a.net == b.net
    requires ClosingVoteSet(a, s, step).Some?
    ensures var v := ClosingVoteSet(a, s, step).value;
      var s' := Apply(a, s, step).state;
      && v.fnId in s'.mem.prevMaj && s'.mem.prevMaj[v.fnId] == v && v.fnId !in s'.mem.current
      && EffectiveNonce(s'.mem, v.fnId) == v.nonce + 1
      && Apply(a, s', Restart).state.mem == s'.mem
      && var t' := Apply(b, t, ReceiveMaj23(v)).state;
      && EffectiveNonce(s'.mem, v.fnId) <= EffectiveNonce(t'.mem, v.fnId)
      && Apply(b, t', Restart).state.mem == t'.mem
  {
    ClosingFiles(a, s, step);
    ReceivingCatchesUp(b, t, ClosingVoteSet(a, s, step).value);
  }

  lemma ClosingFiles(a: Node, s: State, step: Step)
    requires NodeOk(a) && Inv(a, s) && Fits(s, step) && ClosingVoteSet(a, s, step).Some?
    ensures var v := ClosingVoteSet(a, s, step).value;
      var s' := Apply(a, s, step).state;
      && IsValid(a.net, v) && HasConverged(a.net, v) && v.nonce < MAX_INT64
      && v.fnId in s'.mem.prevMaj && s'.mem.prevMaj[v.fnId] == v && v.fnId !in s'.mem.current
      && EffectiveNonce(s'.mem, v.fnId) == v.nonce + 1
      && s'.disk == s'.mem
  {
    if step.Commit? {
      assert CurrentOk(a.net, s.mem, step.fnId);
    }
  }

  lemma ReceivingCatchesUp(b: Node, t: State, v: VoteSet)
    requires NodeOk(b) && IsValid(b.net, v) && HasConverged(b.net, v) && v.nonce < MAX_INT64
    ensures var t' := Apply(b, t, ReceiveMaj23(v)).state;
      v.nonce + 1 <= EffectiveNonce(t'.mem, v.fnId) && t'.disk == t'.mem
  {
  }
}
