# loomchain: voting reactor, application store and transaction state, verified

This project models the parts of loomchain that must not go wrong silently, and proves what they keep.

* **The fnConsensus voting reactor.** Validators gossip partial votesets, merge them, tally weighted votes on
  message digests, and one of them submits the multi-signed message. `VoteSets.dfy` describes the contents of a
  voteset and what each operation does to them, `FnVoteSet.dfy` carries the operations out in place on arrays,
  `Tally.dfy` counts, `Reactor.dfy` is the state machine of one node (casting a vote, committing, the two message
  handlers, restarting), `FnConsensusReactor.dfy` is the reactor object that takes those steps, `Gossip.dfy`
  shows why gossip dies down, `SigningOnce.dfy` when a node votes only once and what that gives the cluster, and
  `StepEffects.dfy` says what each step does without following its code.
* **The two-database application store.** `EvmStore.dfy` is the EVM store with its delta-encoded history of state
  roots, `AppStore.dfy` the state machine of both databases with crashes and reopens, and
  `MultiWriterAppStore.dfy` the store object. `Keys.dfy`, `SortedKeys.dfy` and `KeyValue.dfy` hold byte-string
  order, prefix ranges, big-endian numbers, iterators and cache overlays.
* **Transaction state.** `CacheTx.dfy` (the write-back cache of a transaction), `Nonces.dfy` (account nonces under
  CheckTx and DeliverTx), `EventStore.dfy` (the doubly indexed event store) and `TxLimiter.dfy` (the call limiter).

Wherever the source changes fields or arrays, the model is a class whose methods are proved against functions on
values; the results about runs are proved about those functions. Hashing, signatures and their verification are
function-valued fields of `Network` and `Node`, so every result holds for every choice of them; what is assumed of
them is written out in `SignsFor` and `NodeOk`; that votes of honest validators are not forged is `Authentic`.

## What is proved

* Two valid votesets of one round carry the same digest, or validators with more than a third of the power have
  signed two different votes (`AccountableAgreement`); so do any two submissions ever made by two nodes
  (`SubmissionsAgree`), and of all nodes committing one voteset a single one submits it (`OneNodeSubmits`).
* A node that loses no vote of its own signs one ballot a round, in every run (`VotesAscend`, `SignsOnce`), and which
  steps lose one is known exactly (`CastVoteSpends`, `CommitSpends`, `RestartRemembers`). So while at most a third of the
  power is dishonest, every voteset that carries a round carries the same digest, and all submissions for it hash to
  that digest (`ClusterAgreement`, `ClusterSubmitsOneMessage`). A node submits at most once a round
  (`SubmissionsAscend`), and one validator does submit if it holds the message (`CommitSubmits`, `SomeoneSubmits`,
  `VoterSubmits`).
* Every interleaving of votes, commits, messages and restarts keeps the reactor invariant (`Reactor.RunKeepsInv`,
  `RunKeepsValid`), every submission is backed by a carried round (`RunSubmissionsAreSafe`), nonces never decrease
  between restarts (`NoncesMonotone`), and a stretch that leaves a voteset in place announces at most 4(n+1)² messages
  about it (`GossipIsBounded`).
* Merging votesets is a join (`MergeIsJoin`, `MergeChanges`, `MergeAssociates`, `MergeCommutes`), and the one-pass
  running-maximum tally equals the declarative one (`ToMajResponse`).
* In every run of the application store, with versions kept in memory, switches of the write mode and crashes at
  any sub-step, a version on disk reopens iff its tree named the committed root when it was saved (`RestartOpens`,
  `EveryRestartOpens`), which it does while clients are considerate (`ConsiderateRunsVouch`). Every snapshot pairs
  its tree with the root committed for it (`SnapshotsPair`), and reads are those of one ordinary map
  (`RunRefinesMap`), whatever clients write.
* Looking a root up in the delta-encoded history gives the root in force (`DeltaHistoryIsFullHistory`).
* Committed nonces strictly increase in every run, without gaps unless failed transactions count
  (`CommittedSequencesIncrease`, `NoGaps`); both event indexes return exactly the events asked for, in order, and
  agree with each other (`FilterEvents`, `IndexesAgree`); the limiter's bound holds per window and per stretch of
  blocks (`WindowBound`, `AnyStretchBound`), and no lower one does (`LimitIsExact`).

## Where the code does not do what one would expect

Each is kept as it is in the code, with a lemma that says exactly when it happens.

* Digests are compared with `bytes.Equal`, for which nil equals the empty string. If the empty string wins a round,
  validators that have not voted count as agreeing (`AgreeBitsAreVoters`, `EmptyDigestWins`), and a node that holds
  no message submits an empty payload for it (`SubmissionSafe`, `CommitStalls`). Local digests are never empty.
* `AddVote` stores the function's signature unchecked; a nil one, as from a function that panics, leaves a voteset
  that fails `IsValid` (`AddVoteKeepsValid`). The next commit throws it away, and the node signs again in the same
  round (`CommitSpends`, `NilAnswerSignsAgain`).
* Signatures in slots nobody voted in are not checked, so votesets without a double vote may still merge to
  different ones (`MergeCommutes`).
* Nonces are 64-bit: closing a round at the largest one wraps around (`NonceNeverDecreases`).
* The voteset handler does not save the state it changes. A restart takes back what it did to a nonce since the last
  save (`RestartForgetsRound`, `RoundForgotten`), and an honest node then signs a second ballot in the round
  (`RestartSignsAgain`).
* The voteset handler keeps no message for the vote it adds, and a restart forgets those there are. A node whose turn
  it is to submit then never closes the round by committing it (`CommitStalls`).
* Whether a round is under way is looked up before the step that opens one, under a lock of its own; opening a round
  over a voteset that holds the node's vote makes an honest node sign twice. So does every vote of a validator that
  reaches the threshold alone, since its round is never closed (`CastVoteSpends`, `VoteSubmitsAlone`).
* An event that takes the position of another contract's event leaves that one in the contract index alone, for good
  (`PutKeepsHolds`, `BatchSaveEvents`), and a filter by that contract then answers with too much
  (`AgreeIffNoneStranded`, `FilterEvents`). Asking for all heights up to the last 64-bit number finds nothing
  (`EmptySelection`).
* While both databases are written, an empty EVM root is replaced by its marker in one of them only, and a root left
  in the tree by an EVM-only phase is not updated: the next reopen is refused (`SaveReopens`, `DualWriteReopens`). A root recorded
  by a commit that a crash undid survives a replay that leaves the root unchanged (`CommitRecordsRoot`).
* A malformed transaction that counts leaves the nonce cache one behind (`DeliverKeepsCacheAhead`).
* A tier without a block range limits nothing, although counting guards against it (`NoRangeNoLimit`); a limit of 0
  lets one call through (`LimitIsExact`).

## Model

| member | source | states |
|---|---|---|
| Validators.QuorumsOverlap | fnConsensus/types.go:748-759 | Two sets of validators that both reach the signing threshold share more than a third of the power, or all of it when everyone must sign |
| Validators.PowerOverlap | fnConsensus/types.go:834-855 | Inclusion and exclusion for the voting power summed over votesets |
| Validators.Maj23IsTwoThirds | fnConsensus/types.go:748-759 | The majority threshold is reached iff more than two thirds of the power are |
| Validators.AllIsEveryone | fnConsensus/types.go:748-759 | The other threshold is reached iff everyone is marked |
| VoteSets.MergeIsJoin | fnConsensus/types.go:864-898 | Merging votesets of one round holds exactly the votes of both with ours winning, its power is that of the union, and merging valid ones is valid |
| VoteSets.MergeChanges | fnConsensus/types.go:864-898 | A merge changes the receiver iff the other set has a new vote; then the number of votes grows, and convergence is never lost |
| VoteSets.MergeCommutes | fnConsensus/types.go:864-898 | The order of merging matters to the votes iff some validator cast two different votes, and to the voteset as a whole iff that or a different signature in an unused slot |
| VoteSets.MergeAssociates | fnConsensus/types.go:864-898 | Merging three votesets gives the same voteset in either grouping, double votes or not |
| VoteSets.ValidIsSound | fnConsensus/types.go:276-316 | A stored voteset is valid iff every vote in it has a signature of the function |
| VoteSets.ConvergedMeans | fnConsensus/types.go:748-759 | A voteset has converged iff more than two thirds of the power voted, or everyone |
| VoteSets.ValidVoteSetsMerge | fnConsensus/types.go:616-653 | Sound votesets, and so valid ones, can be merged iff they agree on nonce and function |
| VoteSets.AddVoteKeepsValid | fnConsensus/types.go:906-953 | Adding a vote succeeds, adds exactly that vote and its power, and leaves the voteset valid iff it was and the function supplied a signature |
| VoteSets.AddVoteSucceeds | fnConsensus/types.go:906-953 | A vote is added iff it is for the round and the validator has not voted; else nothing changes |
| VoteSets.NewVoteSetValid | fnConsensus/types.go:553-606 | A new voteset exists iff there is a signature, and is then valid with exactly one vote |
| FnVoteSets.FnVoteSet.constructor | fnConsensus/types.go:612-614 | Decoding builds an object with the given contents |
| FnVoteSets.FnVoteSet.NewVoteSet | fnConsensus/types.go:553-606 | The object built holds what the specification says, or there is none |
| FnVoteSets.FnVoteSet.IsValid | fnConsensus/types.go:766-862 | The checks and the power count accept exactly the valid votesets |
| FnVoteSets.FnVoteSet.Merge | fnConsensus/types.go:864-898 | In place: the merged contents, whether anything changed, and untouched on error |
| FnVoteSets.FnVoteSet.MergeResponse | fnConsensus/types.go:248-274 | In place: answers and oracle signatures are filled where missing, reported iff something was filled |
| FnVoteSets.FnVoteSet.AddVote | fnConsensus/types.go:906-953 | In place: every outcome, including what a failure leaves behind |
| FnVoteSets.FnVoteSet.NumberOfVotes | fnConsensus/types.go:736-744 | The number of set vote bits |
| FnVoteSets.FnVoteSet.MajResponse | fnConsensus/types.go:900-904 | The declarative tally of the object's contents |
| Tally.ToMajResponse | fnConsensus/types.go:382-436 | The one-pass running maximum finds the digest whose total power reaches the threshold, or nothing if there is none |
| Tally.CarriesMeans | fnConsensus/types.go:422-435 | A digest carries a round iff more than two thirds of the power voted for it, or everyone |
| Tally.CountVotes | fnConsensus/types.go:385-404 | The totals are the power behind every digest, and the best one is highest |
| Tally.AgreeingSlots | fnConsensus/types.go:406-414 | The agree bits and signatures of the slots equal to the winning digest |
| Tally.OnlyOneCarries | fnConsensus/types.go:422-435 | At most one digest can reach the threshold |
| Tally.CarriedImpliesConverged | fnConsensus/types.go:748-759 | On a valid voteset, a majority response implies convergence |
| Tally.SingleVoteCarries | fnConsensus/reactor.go:499-515 | A voteset with one vote converges iff that vote carries the round |
| Tally.AgreeBitsAreVoters | fnConsensus/types.go:409-414 | The agree bits are the voters of the digest, iff the empty string does not carry the round or everyone voted |
| Tally.EmptyDigestWins | fnConsensus/types.go:409-414 | There is a valid voteset that the empty string carries and whose agree bits are not its voters |
| Tally.SignaturesFromVoters | fnConsensus/types.go:406-414 | The signatures handed on are those of the voters of the digest, each at its position |
| Tally.AgreeIndex | fnConsensus/types.go:184-198 | The rank of a validator among the agreeing ones, or -1 |
| Tally.NumberOfAgreeVotes | fnConsensus/types.go:200-208 | The number of agreeing validators |
| Tally.AgreeRankBijection | fnConsensus/types.go:184-208 | Ranking is a bijection from the agreeing validators onto 0 to their number, and keeps their order |
| Tally.OneSubmitter | fnConsensus/reactor.go:629-633 | For every nonce exactly one agreeing validator is elected |
| Tally.TurnsGoRound | fnConsensus/reactor.go:629-633 | Turns go round with the nonce, from rank 0 at nonce 0 |
| Tally.AccountableAgreement | fnConsensus/types.go:382-436 | Two valid votesets of one round carry the same digest, or enough power signed twice |
| Reactor.VoteKeepsInv | fnConsensus/reactor.go:436-540 | Casting a vote keeps the reactor invariant |
| Reactor.CommitKeepsInv | fnConsensus/reactor.go:549-664 | Committing keeps it; a converged current voteset has its nonce stored |
| Reactor.Maj23KeepsInv | fnConsensus/reactor.go:738-846 | Receiving a majority voteset keeps it |
| Reactor.VoteSetKeepsInv | fnConsensus/reactor.go:848-986 | Receiving a voteset, merging or replacing and voting on it, keeps it |
| Reactor.KeptIsValid | fnConsensus/reactor.go:891-922 | What is kept of two votesets is of the same function, not of an earlier round, and valid if the stored one is; merging never fails |
| Reactor.RunKeepsInv | fnConsensus/reactor.go:336-433 | In every interleaving, restarts included: current votesets are valid but for missing signatures of the function, filed under their function and at the stored nonce; previous majorities are valid, converged and of smaller nonce |
| Reactor.RunKeepsValid | fnConsensus/reactor.go:336-433 | While no function answers the voteset handler without a signature, every current voteset is valid |
| Reactor.RunKeepsNamed | fnConsensus/types.go:124-138 | In every run whatever, votesets in memory and on disk are filed under their own functions, and messages with their digests |
| Reactor.NonceNeverDecreases | fnConsensus/reactor.go:653-658 | A step lowers a nonce iff it closes a round at the largest 64-bit number |
| Reactor.NoncesMonotone | fnConsensus/reactor.go:738-846 | Between restarts the nonces of every run never go down |
| Reactor.RestartForgetsRound | fnConsensus/reactor.go:848-986 | In every run, a restart takes a nonce back iff a voteset message has raised it and nothing was saved since |
| Reactor.RoundForgotten | fnConsensus/reactor.go:904-909 | A new node that receives a converged voteset of a later round is there, and after a restart back in the first |
| Reactor.SubmissionsAreSafe | fnConsensus/reactor.go:499-515 | A submission is backed by a valid voteset of a registered function carrying its digest, with exactly the signatures of its voters, and a payload that hashes to it iff it is not empty, and is empty otherwise |
| Reactor.RunSubmissionsAreSafe | fnConsensus/reactor.go:620-650 | The same for every submission of every run, whatever functions answer |
| Reactor.SubmissionsAgree | fnConsensus/reactor.go:620-650 | Submissions of any two nodes for one round carry the same digest, or enough power signed twice |
| Reactor.SubmissionsAscend | fnConsensus/reactor.go:620-658 | In every run, restarts included, a node that does not reach the threshold alone submits for ascending rounds of a function, so at most once a round |
| Reactor.VoteSubmitsAlone | fnConsensus/reactor.go:498-515 | Casting a vote submits iff the vote reaches the threshold alone, and then leaves the round as it was |
| Reactor.PassingOnMoves | fnConsensus/reactor.go:784-846 | A majority voteset is rebroadcast iff it moves the node past its round, which is then saved |
| Reactor.PassedOnAscend | fnConsensus/reactor.go:784-846 | In every run, restarts included, the majority votesets of a function that a node rebroadcasts are of ascending rounds, so none is rebroadcast twice |
| Reactor.OneNodeSubmits | fnConsensus/reactor.go:629-633 | Nodes that commit the same voteset do not both submit it |
| Reactor.CommitStalls | fnConsensus/reactor.go:629-641 | Committing a carried round changes nothing iff it is the node's turn and it does not hold the message agreed on; without any message it submits only the empty payload, for the empty string |
| Reactor.ClosedRoundsSpread | fnConsensus/reactor.go:792-818 | A closed round is filed and durable, and a node receiving its voteset is afterwards at least as far |
| SigningOnce.SignedIsFiled | fnConsensus/reactor.go:482-517 | The ballot a step has signed is the vote shown by the voteset it files |
| SigningOnce.VoteHasSource | fnConsensus/reactor.go:482-517 | A vote of the node's own in a stored voteset was there before, came with the message, or is the ballot signed in the step |
| SigningOnce.SigningSpends | fnConsensus/reactor.go:925-956 | A step that loses no vote signs only in a round the node has neither passed nor voted in, and the round is spent afterwards |
| SigningOnce.SpentStays | fnConsensus/reactor.go:436-986 | A step that throws away or forgets no vote does not reopen a round that the node has passed or voted in, not even a cast over its vote |
| SigningOnce.VotesAscend | fnConsensus/reactor.go:336-433 | In every run that loses no vote, the rounds of one function that a node votes in strictly ascend |
| SigningOnce.SignsOnce | fnConsensus/reactor.go:336-433 | Such a node signs one ballot a round |
| SigningOnce.CastVoteSpends | fnConsensus/reactor.go:416-430 | Opening a round signs twice in it iff it overwrites a voteset with the node's vote, and leaves it open for more iff the vote carries the round alone |
| SigningOnce.CommitSpends | fnConsensus/reactor.go:568-583 | Committing gives up the node's vote iff the voteset that holds it is invalid |
| SigningOnce.SignedNeverDiscards | fnConsensus/reactor.go:568-583 | That does not happen while functions answer the voteset handler with signatures |
| SigningOnce.NilAnswerSignsAgain | fnConsensus/reactor.go:928-956 | A vote without the function's signature is thrown away by the next commit, and the node signs another in the same round |
| SigningOnce.RestartRemembers | fnConsensus/reactor.go:158-173 | A restart loses no vote iff for every function the nonce and the node's vote are on disk, or its vote in the round just before |
| SigningOnce.RestartSignsAgain | fnConsensus/reactor.go:946-986 | A vote added by the voteset handler is forgotten in a restart, and the node signs another in the same round |
| SigningOnce.HonestNotAccused | fnConsensus/types.go:705-730 | A careful validator is never among those who signed twice |
| SigningOnce.ClusterAgreement | fnConsensus/types.go:382-436 | With at most a third of the power dishonest, any two valid votesets that carry a round carry the same digest |
| SigningOnce.CarriedByHonest | fnConsensus/types.go:406-414 | Then the digest of a carried round is not the empty string |
| SigningOnce.ClusterSubmitsOneMessage | fnConsensus/reactor.go:620-650 | And all submissions for a round, by any nodes in any runs, hash to the same digest |
| StepEffects.CommitSubmits | fnConsensus/reactor.go:620-650 | A commit submits iff a digest carries the valid voteset of a registered function, it is the node's turn among those agreeing at its nonce, and the node holds the message; it submits that message with the signatures of its voters |
| StepEffects.SomeoneSubmits | fnConsensus/reactor.go:629-648 | For every carried voteset there is an agreeing validator who submits on committing it, if it holds the message |
| StepEffects.VoterSubmits | fnConsensus/reactor.go:472-475 | In every run, a node that has cast a vote and neither restarts nor casts another submits its message on committing, in its turn, a voteset its digest carries |
| StepEffects.VoteLeavesMessage | fnConsensus/reactor.go:472-475 | A vote leaves its message and digest behind |
| StepEffects.MessageStays | fnConsensus/reactor.go:472-475 | Only another vote on the function and a restart touch it |
| StepEffects.CommitEffect | fnConsensus/reactor.go:568-664 | A valid, converged voteset is filed and the nonce moves on unless the node lacks the message in its turn; an invalid one is dropped, another stays; all but the former is saved |
| StepEffects.NothingToCommit | fnConsensus/reactor.go:549-557 | Without a registered function or a voteset a commit does nothing |
| StepEffects.RestartBlocks | fnConsensus/reactor.go:634-641 | After a restart a node in its turn changes nothing by committing, whatever message carries the round |
| StepEffects.OthersStay | fnConsensus/reactor.go:436-986 | No step touches the voteset, nonce or previous majority of a function it is not about |
| StepEffects.VotingKeepsPrevious | fnConsensus/reactor.go:436-540 | Casting a vote and receiving a voteset leave previous majorities alone |
| StepEffects.LateMajority | fnConsensus/reactor.go:793-801 | A majority voteset of an earlier round is filed iff it is of the round just before and none is there, and the state is saved |
| StepEffects.HandlerRaises | fnConsensus/reactor.go:891-916 | The voteset handler moves a node to a later round iff the voteset is valid, converged and of that round, and the slot is empty or stands lower |
| StepEffects.SlotFilled | fnConsensus/reactor.go:675-684 | An empty slot is filled iff the voteset is valid and of the node's round, or of a later one and converged |
| StepEffects.HandlerRefuses | fnConsensus/reactor.go:861-889 | An invalid voteset or one of an earlier round changes no voteset and no nonce and is not announced |
| StepEffects.HandlerVotes | fnConsensus/reactor.go:891-960 | The slot then holds exactly the votes of both votesets of one round or of the one kept, and the node's own answer if it had not voted |
| StepEffects.AnnouncesChanges | fnConsensus/reactor.go:962-985 | The handler announces iff the stored voteset changed, unless a validator failed to add its vote |
| FnConsensusReactors.FnConsensusReactor.Vote | fnConsensus/reactor.go:436-540 | The object takes the voting step and makes its submission |
| FnConsensusReactors.FnConsensusReactor.Commit | fnConsensus/reactor.go:549-664 | The object takes the commit step and makes its submission |
| FnConsensusReactors.FnConsensusReactor.DecideSubmission | fnConsensus/reactor.go:619-651 | Whether it is this node's turn, and whether its message is the agreed one |
| FnConsensusReactors.FnConsensusReactor.HandleMaj23 | fnConsensus/reactor.go:738-846 | The object takes the step for a majority voteset and announces as specified |
| FnConsensusReactors.FnConsensusReactor.CompareFnVoteSets | fnConsensus/reactor.go:669-736 | The chain of comparisons decides as specified |
| FnConsensusReactors.FnConsensusReactor.HandleVoteSet | fnConsensus/reactor.go:848-986 | The object takes the step for a voteset and announces as specified |
| FnConsensusReactors.FnConsensusReactor.Save | fnConsensus/types.go:72-109 | The state is saved as lists without keys, from which it is read back unchanged |
| FnConsensusReactors.FnConsensusReactor.OnStart | fnConsensus/reactor.go:158-173 | A restart reads back what was saved and forgets the messages |
| FnConsensusReactors.Marshal | fnConsensus/types.go:72-109 | The saved list holds exactly the votesets of the map |
| FnConsensusReactors.Unmarshal | fnConsensus/types.go:111-141 | Reading back files each voteset under the function it names |
| FnConsensusReactors.SavedIsReadBack | fnConsensus/types.go:72-141 | What is saved is read back unchanged iff every voteset is filed under its own function |
| FnConsensusReactors.RunReadsBack | fnConsensus/types.go:72-141 | In every run, any listing of the saved votesets is read back as what was saved |
| Gossip.TrustIsStanding | fnConsensus/reactor.go:669-736 | A voteset of another round is trusted over the local one iff it converged and its (converged, votes, majority, agreeing) is higher |
| Gossip.KeptStandsHigher | fnConsensus/reactor.go:891-922 | Reconciling never lowers that standing, and a change raises it |
| Gossip.AnnouncementRaises | fnConsensus/reactor.go:891-985 | An announced message fills an empty slot or raises the standing of the stored voteset |
| Gossip.GossipIsBounded | fnConsensus/reactor.go:961-985 | In every stretch of every run without a removal or overwrite, announcements are bounded by 4(n+1)² |
| Keys.PrefixRangeEnd | store/iavlstore.go:78-97 | The trimming loop finds the end of a prefix range |
| Keys.PrefixRangeIsExact | store/iavlstore.go:78-97 | The range from a prefix to its end holds exactly the keys that start with it |
| Keys.BigEndianOrders | store/eventstore.go:159-169 | Big-endian numbers of one width are ordered like their values, whatever follows them |
| Keys.BigEndianRoundTrip | store/eventstore.go:159-176 | Decoding a big-endian number gives it back |
| SortedKeys.PrefixRange | store/iavlstore.go:110-140 | Without a limit, exactly the keys under prefix and zero byte, unprefixed and ascending; with one, a first part of that list of at most so many |
| SortedKeys.PrefixRangeIsDetermined | store/iavlstore.go:110-140 | There is only one such list |
| EvmStores.RootSearchRange | store/evmstore.go:243-258 | The key range searched for a version holds exactly the roots recorded up to it |
| EvmStores.DeltaHistoryIsFullHistory | store/evmstore.go:186-217 | For every run of blocks with any writes, committed at increasing versions, a root lookup gives the root in force at the last commit not above the version, and nothing before the first |
| EvmStores.RecordedIffChanged | store/evmstore.go:197-200 | In every run of blocks a root is written at a version iff it changes there |
| EvmStores.CommitExtendsHistory | store/evmstore.go:186-217 | A commit leaves the history before its version alone and shows its root from there on |
| EvmStores.LoadingMeans | store/evmstore.go:219-237 | Loading fails iff no root is recorded up to a version above 0; else it gives the root recorded last and its version |
| EvmStores.EvmStore.Set | store/evmstore.go:178-184 | The root hash goes to its field, everything else to the cache |
| EvmStores.EvmStore.Delete | store/evmstore.go:170-176 | The same for deletions |
| EvmStores.EvmStore.Get | store/evmstore.go:159-168 | Reads the cache over the database |
| EvmStores.EvmStore.Has | store/evmstore.go:148-157 | The root hash always exists, other keys as the overlay says |
| EvmStores.EvmStore.Commit | store/evmstore.go:186-217 | The database becomes the overlay, with the root recorded iff it changed |
| EvmStores.EvmStore.LoadVersion | store/evmstore.go:219-237 | Loads the root in force, or fails iff there is none above version 0 |
| EvmStores.EvmStore.GetLastSavedRoot | store/evmstore.go:243-258 | The backward search finds the root recorded last up to the version |
| EvmStores.EvmStore.GetSnapshot | store/evmstore.go:260-270 | The root comes from the LRU or from the history |
| EvmStores.EvmStore.Range | store/evmstore.go:89-146 | Exactly the live overlay of cache over database under the prefix, ascending |
| EvmStores.WriteBatch | store/evmstore.go:204-212 | Applying the batch in any order gives the overlay |
| AppStores.CommitKeepsHistory | store/evmstore.go:186-217 | A commit, first or replayed, leaves the right root in force at every version |
| AppStores.StepKeepsBase | store/multi_writer_app_store.go:94-224 | Every write, sub-step of a save, dropped version and reopen keeps the history of roots right, whatever clients write |
| AppStores.StepKeepsInv | store/multi_writer_app_store.go:94-224 | Every such step of considerate clients keeps the two databases consistent |
| AppStores.RestartOpens | store/multi_writer_app_store.go:94-124 | In every run, whenever the process dies, a version on disk passes the root check iff its tree names the root committed for it, and iff it did so when it was saved |
| AppStores.EveryRestartOpens | store/multi_writer_app_store.go:94-124 | In every run in which all saves to disk name their roots, every version on disk passes the root check and comes up with its root |
| AppStores.ConsiderateRunsVouch | store/multi_writer_app_store.go:185-224 | All saves do while clients do not switch the EVM-only feature off and no block leaves an empty root while both databases are written |
| AppStores.RestartRestores | store/multi_writer_app_store.go:94-124 | A reopened store is at the version loaded, reads the application keys as they were when it was saved and the EVM keys as the database has them, and is in the write mode it was saved in |
| AppStores.SavedNowOrBefore | store/multi_writer_app_store.go:211-214 | What is on disk changes iff a save is flushed or the version is dropped |
| AppStores.CommitRecordsRoot | store/evmstore.go:191-199 | A commit records its root iff it changed or the record in force is right already |
| AppStores.SaveReopens | store/multi_writer_app_store.go:185-224 | A block that is committed and saved reopens iff it is saved in EVM-only mode or the entry in the tree that counts names the root it leaves, crashes before or not |
| AppStores.DualWriteReopens | store/multi_writer_app_store.go:103-116 | While both databases are written, a root set by a block reopens iff it is the one left in the tree by an EVM-only phase, or there is none and it is not empty |
| AppStores.SnapshotsPair | store/evmstore.go:260-270 | A snapshot that asks for its tree, the LRU and the database at three moments of any run, with any LRU contents, reads the root committed for its tree's version |
| AppStores.SnapshotsFollow | store/multi_writer_app_store.go:216-282 | In every run snapshots are of the version last published, the latest saved or reopened by then |
| AppStores.ModeSwitches | store/multi_writer_app_store.go:137-149 | Between reopens the store goes over to EVM-only mode iff the feature is switched on |
| AppStores.EvmOnlyFreezesTree | store/multi_writer_app_store.go:126-149 | In EVM-only mode EVM keys in the tree change by pruning only |
| AppStores.MirrorStays | store/multi_writer_app_store.go:126-149 | While both databases are written, a tree that mirrors the EVM keys goes on doing so |
| AppStores.SetReads | store/multi_writer_app_store.go:137-149 | A write changes the reads of its key and of no other |
| AppStores.DeleteReads | store/multi_writer_app_store.go:126-135 | A deletion removes its key from the reads and no other |
| AppStores.SavingReads | store/multi_writer_app_store.go:185-252 | Committing, saving and pruning show in no read |
| AppStores.StepRefinesMap | store/multi_writer_app_store.go:126-175 | Every step of clients that leave the bookkeeping keys alone acts on the reads as on one ordinary map |
| AppStores.RunRefinesMap | store/multi_writer_app_store.go:126-252 | From any state to the next reopen the store reads like one map under the same writes |
| AppStores.ReadableAsMap | store/multi_writer_app_store.go:151-163 | Every state reads like some map |
| MultiWriterAppStores.MultiWriterAppStore.Open | store/multi_writer_app_store.go:94-124 | Opening succeeds iff the roots match, and then starts in the right write mode |
| MultiWriterAppStores.MultiWriterAppStore.Set | store/multi_writer_app_store.go:137-149 | Takes the write step, including the switch of write mode |
| MultiWriterAppStores.MultiWriterAppStore.Delete | store/multi_writer_app_store.go:126-135 | Takes the deletion step |
| MultiWriterAppStores.MultiWriterAppStore.Has | store/multi_writer_app_store.go:151-156 | Answers as the single-map reading says; the root hash always exists |
| MultiWriterAppStores.MultiWriterAppStore.Get | store/multi_writer_app_store.go:158-163 | Answers as the single-map reading says; the root hash is the current root |
| MultiWriterAppStores.MultiWriterAppStore.Range | store/multi_writer_app_store.go:166-175 | Lists the client keys under a prefix in ascending order, exactly as single reads find them |
| MultiWriterAppStores.MultiWriterAppStore.SaveVersion | store/multi_writer_app_store.go:185-224 | Is the commit, save and publish steps, flushed to disk as the intervals say; snapshots then see the new version with the root held before |
| MultiWriterAppStores.MultiWriterAppStore.PruneOldEvmKeys | store/multi_writer_app_store.go:226-252 | When due, removes the lowest mirrored EVM keys, at most as many as configured, and all there are if the removed ones are fewer than the tree answers with by more than one; otherwise nothing |
| MultiWriterAppStores.MultiWriterAppStore.GetSnapshot | store/multi_writer_app_store.go:275-282 | Pairs the published tree's version with the root looked up for it |
| MultiWriterAppStores.SaveThenSnapshot | store/multi_writer_app_store.go:275-282 | A snapshot taken after a save is of the version saved, with the root held before it |
| MultiWriterAppStores.OneFlushPerInterval | store/iavlstore.go:156-187 | With an interval n exactly one of any n versions in a row goes to disk |
| MultiWriterAppStores.EveryVersionFlushed | store/iavlstore.go:156-187 | Without one every version does |
| MultiWriterAppStores.VmPrefixes | store/multi_writer_app_store.go:166-175 | A range prefix leads to EVM keys iff the store routes it to the EVM store |
| CacheTxs.CacheReadsAhead | store/store.go:107-136 | After any writes, reading through the cache equals reading the store with the writes applied |
| CacheTxs.CommitTwice | store/store.go:138-148 | Committing again changes nothing more |
| CacheTxs.CacheTx.Set | store/store.go:112-115 | Appends the write and keeps the cache in step with the list |
| CacheTxs.CacheTx.Delete | store/store.go:107-110 | The same for a deletion |
| CacheTxs.CacheTx.Has | store/store.go:122-128 | Sees the store as if the writes were applied |
| CacheTxs.CacheTx.Get | store/store.go:130-136 | Sees the store as if the writes were applied |
| CacheTxs.CacheTx.Commit | store/store.go:138-148 | The store becomes what applying the writes directly gives |
| CacheTxs.CacheTx.Rollback | store/store.go:150-153 | The writes are forgotten and the store is untouched |
| Nonces.CheckLeavesStore | app.go:634-675 | CheckTx never changes the store |
| Nonces.DeliverAdvances | app.go:677-825 | A delivery advances the nonce of its origin, and no other, iff it succeeds or failures count; a success carried the next nonce |
| Nonces.DeliverSucceeds | app.go:715-825 | A delivery succeeds iff the transaction is signed, well-formed, carries the nonce after the stored one and runs through |
| Nonces.DeliverWrites | app.go:715-825 | On all keys but nonces a successful delivery applies exactly the writes of the transaction, a failed one none |
| Nonces.CheckSucceeds | auth/auth.go:111-172 | A check succeeds iff the transaction is signed, well-formed, carries the cached nonce of the block or else the one after the stored one, and runs through |
| Nonces.CheckExpectsNext | auth/auth.go:144-196 | After a successful check the next one of the account is expected to carry the number behind it, after a failed one the same as before |
| Nonces.DeliverExpectsNext | auth/auth.go:144-196 | After a delivery a check expects the number after the stored one |
| Nonces.OtherNoncesStay | auth/auth.go:123-127 | Cached nonces of other accounts stay within a block and are cleared with the next |
| Nonces.CommittedSequencesIncrease | auth/auth.go:111-172 | In every run the sequence numbers an account commits strictly increase |
| Nonces.NoGaps | auth/auth.go:111-172 | While failures do not count, the n-th committed transaction carries the number n |
| Nonces.DeliverKeepsCacheAhead | auth/auth.go:129-172 | A delivery keeps the cache ahead of the store, unless it is malformed and uses up the cached nonce |
| Nonces.RunKeepsCacheAhead | auth/auth.go:111-196 | For well-formed transactions a cached nonce is always above the stored one |
| Nonces.AdvancedValue | sequence.go:18-42 | The stored sequence reads back as one more than before |
| Nonces.NextInStore | sequence.go:31-42 | Advances the sequence in the raw store |
| Nonces.NextInTx | sequence.go:31-42 | Advances the sequence in the transaction |
| Nonces.NonceHandler.Nonce | auth/auth.go:111-172 | The middleware leaves cache, height, store and buffered writes as specified |
| Nonces.NonceHandler.IncNonce | auth/auth.go:174-196 | The cached nonce advances unless the delivery counted it already |
| Nonces.Application.CheckTx | app.go:634-675 | Takes the checking step: processed in a transaction that is rolled back |
| Nonces.Application.DeliverTx | app.go:677-825 | Takes the delivery step: committed iff it succeeded |
| EventStores.HeightKeyInRange | store/eventstore.go:100-114 | The key range of two heights holds exactly the events between them |
| EventStores.ContractKeyInRange | store/eventstore.go:87-99 | The key range of a contract and two heights holds exactly its events between them |
| EventStores.PutKeepsHolds | store/eventstore.go:60-83 | Writing an event keeps every event in both indexes, and the indexes in agreement iff they were and its position is free or holds an event of the same contract |
| EventStores.AgreeIffNoneStranded | store/eventstore.go:60-83 | The indexes agree iff no event is left in the contract index whose position another contract has taken |
| EventStores.IndexesAgree | store/eventstore.go:85-117 | Filtering by contract gives that contract's part of what filtering by height gives |
| EventStores.SelectionIsUnique | store/eventstore.go:85-117 | A filter has one right answer |
| EventStores.EmptySelection | store/eventstore.go:85-117 | No result is the right answer iff nothing is asked for |
| EventStores.KVEventStore.GetContractID | store/eventstore.go:119-127 | Ids are stable and distinct: a known name keeps its id, a new one gets the next |
| EventStores.KVEventStore.NextContractID | store/eventstore.go:129-137 | The counter advances by one, and wraps around at its end |
| EventStores.KVEventStore.BatchSaveEvents | store/eventstore.go:60-83 | Every event is in both indexes at its height and 16-bit index, later ones replacing earlier ones; the indexes agree iff they did and all events that meet at a position are of one contract; a batch with heights of its own that fits the index adds exactly its events |
| EventStores.KVEventStore.FilterEvents | store/eventstore.go:85-117 | Exactly the events asked for in order of height and index, by contract iff none of its events between the heights is stranded, and never fewer; nothing if the end of the range wraps around |
| TxLimiters.ContractTxLimiter.IsAccountLimitReached | throttle/contract_tx_limiter_middleware.go:92-104 | Whether the window's count is used up |
| TxLimiters.ContractTxLimiter.UpdateState | throttle/contract_tx_limiter_middleware.go:106-121 | Counts the call in its aligned window |
| TxLimiters.ContractTxLimiter.Handle | throttle/contract_tx_limiter_middleware.go:252-257 | Passes the call and counts it, or refuses it |
| TxLimiters.WindowBound | throttle/contract_tx_limiter_middleware.go:92-121 | In every run at most the allowed number of calls pass per aligned window |
| TxLimiters.CallPasses | throttle/contract_tx_limiter_middleware.go:92-121 | In every run a call is refused iff its contract has used up the current window |
| TxLimiters.LimitIsExact | throttle/contract_tx_limiter_middleware.go:92-121 | A number bounds the calls per window in all runs iff it is at least the tier's limit and at least 1 |
| TxLimiters.BoundIsReached | throttle/contract_tx_limiter_middleware.go:92-121 | For every height there is a run that passes as many calls in its window as the bound allows, one if the limit is 0 |
| TxLimiters.AnyStretchBound | throttle/contract_tx_limiter_middleware.go:92-121 | And at most twice as many in any stretch of as many blocks |
| TxLimiters.NoRangeNoLimit | throttle/contract_tx_limiter_middleware.go:100-115 | A tier without a range lets every call through |

## Left out

- Validator sets that change: votesets are tied to the hash of one validator set; the reactor is modelled with the fixed set of `OverrideValidators`, so the previous validator set plays no part.
- Encodings: amino and protobuf messages, the layout of the bytes a validator signs, hex keys and JSON; a vote is signed as the record `Ballot`, and a saved state is kept in decoded form.
- Tally.EmptyDigestWins: whether a decoded voteset can hold a digest, or a signature of the function, that is empty and not nil is up to the amino decoder, which reads empty byte strings as nil; the same goes for an empty signature read back after a save.
- Missing parts of a decoded voteset (nil payload, request, response or bit array): a received voteset always has all of them.
- Overflow of 64-bit voting power: powers and thresholds are unbounded integers. Nonces of rounds, accounts and contract ids are 64-bit.
- Peers, timers, logging, metrics and goroutines of the reactor: a step says only whether a received voteset is announced further; the broadcasts of casting a vote and of a commit without consensus change no state.
- FnConsensusReactors.FnConsensusReactor.HandleVoteSet: the reactor's maps hold votesets by value and an object is made for each operation, so sharing of a voteset object between map entries is not captured.
- Reactor.RunKeepsInv: for runs in which no round is closed at the largest 64-bit nonce; `NonceNeverDecreases` says what happens then.
- AppStores.RestartOpens: for clients that leave the root bookkeeping keys alone, and for replayed blocks that commit the same roots; `CommitRecordsRoot` says what happens otherwise.
- AppStores.SnapshotsPair: is about the root a snapshot is read at; other EVM keys are read from the database as it is when the snapshot is taken.
- SortedKeys.PrefixRange: with a limit the tree is taken to answer with some first part of the range; how many keys it returns below the limit is a parameter.
- EventStores.KVEventStore.BatchSaveEvents: for stores that have not given out the last 64-bit contract id; the same holds for `FilterEvents` and `GetContractID`.
- FnVoteSets.FnVoteSet.Merge: votesets of one round have one slot for each validator, as `IsValid` has checked when the reactor merges; with others the source indexes out of range.
- IAVL, LevelDB and LRU internals: a versioned map, a map, and a cache that may forget anything. Failing saves and key lookups that panic are not modelled.
- `cacheTx.Range` reads past the cache on purpose and `SaveEvent`, the prefix wrappers and the copying of the tree to a second database would only add easy members.
- Receipts, event subscriptions and the choice between the two delivery variants: they do not affect the store transaction.
- Loading of tiers and contract data in the limiter: tiers are fixed for a run, and refused calls of inactive deployers are not counted by it.
- SigningOnce.ClusterAgreement: forgery of honest votes is excluded by `Authentic`; nodes that lose a vote of their own in one of the ways of `Careful`, or reach the threshold alone, count as dishonest.
- EVM execution, plugins, DPOS and other contracts, RPC, configuration and command-line tools.
