# Sleepy-HotStuff: a Dafny model and its proofs

This project models two parts of the repository in Dafny and proves what they are for.

**The replica protocol** (`src/consensus`, `src/quorum`, `src/db`). Replicas run HotStuff with
rotating leaders. A replica may fall asleep, lose its volatile state, and come back: either by
asking the others (REC1/ECHO1, then REC2/ECHO2) or from disk.

- `Messages` holds blocks, certificates, signatures and wire messages; `Quorums` the quorum sizes;
  `Buffers`, `RequestQueue` and `DurableStore` the mutable containers.
- `ReplicaSpec` gives one replica as a value and each handler as a function to the new value and the
  messages sent. `ReplicaNode.Node` is the replica as the program keeps it, an object whose handlers
  update its fields step by step; each handler is proved against its function.
- `System` puts n replicas and the set of all messages ever sent into one transition relation.
  Messages may be lost, delayed, reordered and duplicated. Up to f replicas are arbitrary.
- `Views`, `PersistedViews`, `Freshness`, `Sleeping`, `VoteViews`, `Evidence`, `Certs`, `Locks`, `Pipeline`,
  `Ledgers`, `StoredCerts`, `StateTransfer`, `SingleView`, `DiskRecovery` and `HashChain` prove the
  properties of runs; `Progress` says what a quorum of messages brings about.
- `Scripts` and `ViewScripts` build concrete runs step by step. `EarlyReturns` and `EchoedRuns` use
  them for the two runs in which a property the design promises fails.

**The threshold PRF** (`src/threshprf`). `Words` has limbs and bytes, `Modular` congruences, units and
the modular inverse, `Interpolation` the Lagrange argument, `Curves` the curve as an abstract group
of prime order, `ThresholdPrf` dealing, coefficients and combination, `ShareProof` the share with its
proof of equal discrete logarithms, `ShareSoundness` what an accepted proof proves. The order is any
prime below 2^256 and SHA-256 any function to 32 bytes, so the results hold for P-256 once its group
laws and the primality of its order are granted.

## Assumptions

- A handler is one atomic step, as the locks of the program arrange; so is proposing. A timer fires
  at any time after it was armed. A busy wait is a guard on the step that follows it.
- Senders are authenticated, and an arbitrary replica cannot sign a TIMEOUT for another.
- Hashes are terms and signatures are unforgeable; `HashChain` shows what the former rests on. A
  vote signature covers the block hash only, as in the program, so heights are not authenticated.
- In runs with recovery, a replica's answer to one recovery request counts at most once, and recovery
  requests carry new timestamps. Nothing is supposed of the ECHO2s that arbitrary replicas send.
- The counter of answers is shared by ECHO1 and ECHO2 (`src/consensus/sleepyRec.go:165-170`,
  `:290-295`), so an ECHO2 that names a REC1 can end the first phase before the wait
  (`Freshness.LeavesFirstPhaseIff`). The freshness theorems are for runs up to the first such step.
  `Freshness.ReturnsAreFreshIff` is exact: all returns of a run are fresh if and only if each such
  step finds its replica in a fresh view. `EarlyReturns.StaleRun` is a run where it does not.
- The list of operations in a proposal is never nil, and proposed batches come from the queue.
- `VoteViews` is about runs without sleeps. Up to f replicas are arbitrary, unless a row says otherwise.
- `Certs` and `Locks` are about runs of two or more replicas without sleeps in which every replica
  follows the code (it may be slow or silent) and no vote completes a certificate for a proposal its
  proposer made in an earlier view (`Certs.LateCertificate`). That is the exact condition for a
  certificate to name the view its votes were cast in (`VoteViews.CertifiedVotesWereCastInView`).
  `EchoedRuns.CertificateOutlivesItsView` is a run that breaks it, and in the same run a lock blocks a
  new leader (`EchoedRuns.LockBlocksNewLeader`).
- `Ledgers` is about runs without sleeps in which every replica follows the code and a leader handles
  only its own proposals; `Pipeline.ProcessKeepsOrder` shows that this is exactly what
  the order of the ledger needs, and `Pipeline.EntryOverwritten` that write-once fails without it.
- Package `elliptic` panics on a point that is not on the curve, as it does from Go 1.19 on, the version
  `go.mod` names. A panic is the result None.

Where the code and its comments differ, the model follows the code: a leader never commits, since
its own proposals are stale to it; `VerifyQC` accepts a block at the first signature that fails; an
ECHO1 from a leader that entered its view by a VIEWCHANGE quorum alone is rejected
(`StoredCerts.Echo1AcceptedIff`); and the view read back from disk is always 0, because
initialisation stores 0 first (`DiskRecovery.RestartedViewIsFreshIff`).

## Model

| member | source | states |
|---|---|---|
| Freshness.RecoveredViewsAreFresh | src/consensus/sleepyRec.go:73-197 | in every run with up to f arbitrary replicas, any number of sleeps and any messages, a replica active again after a sleep is in a view strictly above every view it was active in before, as long as no ECHO2 naming a REC1 has completed a shared count |
| Freshness.ReturnsAreFreshIff | src/consensus/sleepyRec.go:73-302 | in every run, all returns from sleep are to views above the earlier ones if and only if each ECHO2 that ends a first phase finds its replica above every view that replica was active in |
| Freshness.StaleReturnsStartEarly | src/consensus/sleepyRec.go:229-302 | before any return at or below an earlier view there is a step, of the kind LeavesFirstPhaseIff describes, that ends some replica's first phase at or below a view that replica was active in |
| Freshness.VotesAreInDisjointViews | src/consensus/hotstuff.go:328-409 | in those runs a vote a replica sends after a sleep names a higher view than any vote it sent before |
| Freshness.ViewsNeverFall | src/consensus/viewchange.go:204-271 | between two wake-ups a replica's view does not fall, over whole runs |
| Freshness.WaitEndsAbovePeak | src/consensus/sleepyRec.go:164-197 | when the wait for a view above hView + 2 ends, that view exceeds the highest one the replica was active in: a counted ECHO1 came from a replica that had given up the view below it |
| Freshness.VoteAppears | src/consensus/hotstuff.go:382-409 | a vote enters the network only from an active replica and names the view it is in |
| Freshness.LeavesFirstPhaseIff | src/consensus/sleepyRec.go:229-302 | a replica waiting for answers to its REC1 becomes active exactly by an ECHO2 for that REC1 with acceptable blocks that completes the shared count |
| Sleeping.AwaitedViewsAreReal | src/consensus/sleepyRec.go:136-170 | in every run with up to f arbitrary replicas, each view up to the highest a returning replica was told was given up by a quorum of distinct replicas, of which those that are not arbitrary sent TIMEOUT for it |
| Sleeping.RequestsSurvive | src/consensus/events.go:98-188 | through any events at a replica, sleeps and returns included, the requests it proposed, in order, and then those queued are exactly those it had and was handed |
| Sleeping.AsleepOnlyQueues | src/consensus/hotstuff.go:246-292 | through any events without a wake-up a sleeping replica sends nothing and nothing of it changes but the queue, which takes what it is handed |
| Sleeping.ReturningTakesNoPart | src/consensus/hotstuff.go:246-292 | a recovering replica sends only its REC2 and certificates it received, counts no vote, VIEWCHANGE or TIMEOUT, changes view only by a verified certificate and chain only by an ECHO2 |
| Sleeping.WakesAsNew | src/consensus/hotstuff.go:66-111 | a replica wakes up in exactly the state a new one starts in, but for status, recovery request, ledger, request queue, goroutines and disk |
| Sleeping.CountedVotesAreRecent | src/consensus/hotstuff.go:66-111 | every vote a replica counts was delivered to it after it last woke up |
| EarlyReturns.StaleRun | src/consensus/sleepyRec.go:136-301 | a run of four replicas, one arbitrary: a replica active in view 0 sleeps, wakes up, and two ECHO1s and one ECHO2 naming its REC1 make it READY in view 0 |
| EarlyReturns.EchoToFirstRequestReturnsStale | src/consensus/sleepyRec.go:290-301 | from view 5 the same messages, the ECHO1s carrying valid certificates, return a replica to READY in view 0 |
| Views.NoViewIsSkipped | src/consensus/viewchange.go:92-272 | in every run, for every view w below the view of a replica that is not arbitrary, however it got there, there is a quorum of distinct replicas whose genuine signatures on TIMEOUT for w are all in timeout certificates on the network, and those that are not arbitrary sent it themselves |
| Views.ViewMoves | src/consensus/viewchange.go:204-411 | one event moves the view only by a verified timeout certificate at or above it, by a quorum of VIEWCHANGEs, or back to 0 on waking; timers armed and senders collected are accounted for |
| Views.SourcesDistinct | src/consensus/viewchange.go:177-201 | a list the entry checks of VerifyTQC accept has as many distinct sources as entries |
| Views.LeadsByQuorum | src/consensus/viewchange.go:346-411 | in memory mode a replica comes to lead a view only from that view or the one below, not READY, as the view's leader and with VIEWCHANGEs of a quorum of senders; a READY replica moves by timeout certificates alone |
| PersistedViews.EveryViewIsAnnounced | src/consensus/viewchange.go:92-133 | when views are persisted: in every run with arbitrary replicas, sleeps and restarts from disk, for every view w from 1 up to the view of a replica that is not arbitrary there is a VIEWCHANGE for w on the network by a replica that is not arbitrary |
| PersistedViews.TimerMovesByOne | src/consensus/viewchange.go:92-133 | when views are persisted, a timer of view v moves a replica not above v to exactly v + 1 and announces it once; a timer of a view already left does nothing |
| PersistedViews.EventMovesView | src/consensus/viewchange.go:204-272 | when views are persisted, an event moves the view only by such a timer, a verified timeout certificate, a quorum of VIEWCHANGEs or back to 0 on waking |
| Locks.LocksNeverBlock | src/consensus/viewchange.go:346-411 | in every run without sleeps and late certificates: once a leader has its VIEWCHANGE quorum for view v, its block is at least as high as every lock set anywhere by a certificate formed below v |
| Locks.NewLeadersProposalPasses | src/consensus/hotstuff.go:308-326 | so the leader's proposal, once it builds on a certified block, passes VerifyBlock at every replica still holding such a lock |
| VoteViews.CertifiedVotesWereCastInView | src/consensus/hotstuff.go:795-884 | in every run without sleeps, arbitrary replicas and repeated hashes included: for a certificate completed at a replica that is not arbitrary there is one proposal of it with that hash, and each vote counted of another such replica was cast for it while the voter was in exactly its view; the certificate's View equals that view if and only if the certificate is not late, which holds unless the completing vote is the proposer's own or an arbitrary replica's |
| VoteViews.VoteWasCast | src/consensus/hotstuff.go:382-409 | in those runs every vote on the network of a replica that is not arbitrary was cast by it on handling a proposal with that hash, and names the view it was in |
| VoteViews.EchoedHashMixesViews | src/consensus/hotstuff.go:404-408 | in any such run, when a leader votes for another's proposal with the hash of its own proposal x of an earlier view and that completes the quorum, the certificate names the present view, and every other counted voter that is not arbitrary had voted for x in the view of x, which is below it |
| VoteViews.HeldBlocksWereCertified | src/consensus/hotstuff.go:836-853 | when every replica follows the code, every current block in such a run is the initial one or a certificate some vote completed earlier in the run |
| Evidence.CertificatesAreSigned | src/consensus/hotstuff.go:795-853 | in every run, arbitrary replicas and sleeps included: whenever a vote makes a new block current at a replica that is not arbitrary, the block has a quorum of distinct ids and every signature in it verifies for the id beside it on the block's hash |
| Evidence.CertificateHoldsItsBatch | src/consensus/hotstuff.go:836-878 | in those runs, if the completing vote is numbered as an outstanding proposal, the block has that proposal's hash, which is over the batch whose requests, after the coinbase, are the block's transactions |
| Evidence.VotesHaveGrounds | src/consensus/hotstuff.go:308-409 | in those runs every vote on the network of a replica that is not arbitrary was cast on a proposal of that hash and number that carried a quorum of signatures, one id each unless the hash is nil, at or above the voter's lock, or that is numbered 1 and the voter's own or the first it saw |
| Evidence.ChainMoves | src/consensus/hotstuff.go:328-409 | in those runs a replica that is not arbitrary changes block, lock or ledger only by a delivered proposal with such grounds, a vote, a VIEWCHANGE or ECHO2 whose block has its certificate lists, or the reset on waking, and each value it takes is named |
| Evidence.HeldBlocksAreCertificates | src/consensus/hotstuff.go:308-326 | in those runs, if proposals numbered 1 carry the initial block, every block and lock of a replica that is not arbitrary is the initial block or has its certificate lists |
| Evidence.BareBlockAdoptedIff | src/consensus/hotstuff.go:308-326 | exactly when a proposal makes a block without certificate lists current: numbered 1, another's, the first the replica sees, and higher than its block |
| EchoedRuns.CertificateOutlivesItsView | src/consensus/hotstuff.go:404-408 | a run of five replicas without sleeps in which every replica follows the code and a certificate of view 6 counts a vote cast in view 1 |
| EchoedRuns.LockBlocksNewLeader | src/consensus/hotstuff.go:308-326 | the same run goes on until a replica locks a block of height 2 by that certificate while the leader that has its VIEWCHANGE quorum for view 7 holds height 1, and the replica rejects every proposal on the leader's block numbered other than 1 |
| Locks.LockedBelowCertificate | src/consensus/hotstuff.go:714-762 | a proposal that moves the lock carries a block of height 2 or more above the new lock |
| Certs.RunCerts | src/consensus/hotstuff.go:795-884 | in every run without sleeps and late certificates, each current, locked or carried block is a certificate of a proposal of its view by a quorum of distinct voters who hold its parent's height from then on, each leader has one proposal outstanding, and reports of VIEWCHANGE bound what the leader adopted |
| Certs.NewCertOk | src/consensus/hotstuff.go:820-884 | a vote that completes a quorum, if the certificate is not late, yields such a certificate |
| Certs.CompletedProposal | src/consensus/hotstuff.go:820-850 | the quorum that completes was cast for one outstanding proposal of the certificate's leader |
| Certs.EventGrows | src/consensus/viewchange.go:247-411 | without sleeps, no event lowers view, block height, sequence or markers, and the leader flag stays that of the view |
| Progress.VotesCertify | src/consensus/hotstuff.go:795-884 | valid votes of distinct replicas for one hash complete the certificate at exactly the quorum-th, of exactly these voters in order; fewer change nothing but the votes collected |
| Progress.TimeoutsCertify | src/consensus/viewchange.go:135-175 | TIMEOUTs of distinct replicas for a view not yet left make the replica send their certificate, in order, at exactly the quorum-th; with fewer it sends nothing |
| Progress.ViewChangesLead | src/consensus/viewchange.go:346-411 | VIEWCHANGEs of distinct replicas make a candidate lead at exactly the quorum-th, with a highest block among its own and all offered; with fewer it only collects |
| Progress.AnswersThenAsk | src/consensus/sleepyRec.go:136-197 | a recovery quorum of acceptable ECHO1s and a timeout certificate make the replica send REC2, naming the view it entered, exactly when that view is above h + 2, h being the highest view it was told; with fewer it never does |
| Pipeline.PipelineClosedForm | src/consensus/hotstuff.go:714-762 | folding ProcessQCInfo at a follower over any sequence of certified blocks leaves curBlock as the last strict height record, lockedBlock as the one before, and the ledger above height 0 as exactly the earlier records |
| Pipeline.RecordsRise | src/consensus/hotstuff.go:714-762 | the records rise strictly and the last is the highest block delivered |
| Pipeline.StaleChangesNothing | src/consensus/hotstuff.go:715-719 | at a follower, block, lock and ledger all stay as they are exactly when the certified block is not above its own |
| Pipeline.FollowerInOrder | src/consensus/hotstuff.go:714-762 | a new follower handed the proposals 1 to k in order holds the block the last carries, has locked the one before and committed the one before that, and awaits decisions on exactly the last three |
| Pipeline.ProcessKeepsOrder | src/consensus/hotstuff.go:714-762 | ProcessQCInfo keeps committed < locked < current exactly when it is not a leader that is handed a certified block above its own non-initial one |
| Pipeline.ProcessWritesOnce | src/consensus/hotstuff.go:720-742 | from an ordered state no ledger entry changes value |
| Pipeline.EntryOverwritten | src/consensus/hotstuff.go:743-748 | from any ordered state a leader that is handed another's higher certified block twice, adopts a second block of its old height in a view change, and is handed the first twice again, commits two different blocks at that height |
| Ledgers.LedgerIsOrdered | src/consensus/hotstuff.go:714-762 | in every run without sleeps where leaders handle only their own proposals, committed height < lock height < block height outside height 0 |
| Ledgers.OwnOnlyIsAwake | src/consensus/hotstuff.go:404-408 | in those runs no late certificate is completed |
| Ledgers.LedgerIsWriteOnce | src/consensus/hotstuff.go:714-762 | in those runs no ledger entry ever changes, through proposals, certificates and view changes |
| Ledgers.EventKeepsOrder | src/consensus/viewchange.go:383-395 | one event keeps the order and every entry, and a leader's own proposals leave its lock and ledger alone |
| SingleView.LedgersAgree | src/consensus/hotstuff.go:714-762 | with view changes off, any two ledgers agree at every common height above 0, at any two times |
| SingleView.CommittedIsChain | src/consensus/hotstuff.go:720-735 | every committed block is the leader's certified block of that height and has two certified blocks above it |
| SingleView.ChainIsTheLeaders | src/consensus/hotstuff.go:836-878 | the certified chain has contiguous heights in lockstep with the sequence numbers; each block's hash is over its predecessor's hash, its number and its batch, its transactions are the coinbase and that batch, and it names the hashes of the blocks one and two below |
| SingleView.FollowersAreOnChain | src/consensus/hotstuff.go:714-762 | a follower's block and lock are on the chain, the lock below the block, and the hash it would chain a proposal to is its block's |
| SingleView.RequestsAreConserved | src/consensus/events.go:138-187 | the chain's transactions without coinbases, then the batch waiting for votes, then the queue are exactly the requests ever handed to the leader, in order; no batch exceeds the maximum |
| StateTransfer.RecoveredStateDominates | src/consensus/sleepyRec.go:199-302 | if a vote quorum holds height h or more when answering REC2, the replica returns with a block of height h or more, and with block and lock as high as every ECHO2 it counted, from at least a recovery quorum of senders |
| StateTransfer.RecoveredStateIsTheHighest | src/consensus/sleepyRec.go:229-302 | in every run with arbitrary replicas, from the REC2 to READY: the block is the one held when asking or the prepared block of a counted ECHO2, the lock the one held or the locked block of a counted ECHO2, each of exactly the maximum height among those; the sequence number follows the block, the ledger keeps its entries and has every height of theirs, and the answers are marked complete |
| StateTransfer.MergeNeverOverwrites | src/consensus/sleepyRec.go:236-243 | merging ledgers in arrival order keeps every own entry, takes every offered height and nothing not offered |
| StateTransfer.MergeOrderIrrelevant | src/consensus/sleepyRec.go:236-243 | for agreeing ledgers the merge is the same in every arrival order |
| StateTransfer.EchoCarriesState | src/consensus/sleepyRec.go:199-227 | an ECHO2 on the network carries its sender's block, lock and ledger at the moment it answered |
| StateTransfer.EchoedLedgersAreKept | src/consensus/sleepyRec.go:229-243 | every ECHO2 that reaches a replica that is not asleep is merged whatever it answers, and from then on, sleeps included, no height of its own or the sent ledger is missing |
| StoredCerts.MarkedCertificatesVerify | src/consensus/viewchange.go:135-241 | after any events, sleeps included, every timeout certificate marked PREPARED is stored as a list VerifyTQC accepts |
| StoredCerts.MarkedCertificateStays | src/consensus/viewchange.go:226-234 | through any list of events without a wake-up a marked certificate stays marked and its stored list stays the same |
| StoredCerts.PastIsFrozen | src/consensus/viewchange.go:135-241 | through any list of events without a wake-up, the TIMEOUTs stored for a view already left, and whether they are marked, never change |
| StoredCerts.Echo1AcceptedIff | src/consensus/sleepyRec.go:115-163 | an ECHO1 carries an acceptable certificate exactly when its sender is in view 0 or holds the marked certificate of the view below |
| StoredCerts.EnteredByCertificateEchoIsAccepted | src/consensus/sleepyRec.go:115-163 | the ECHO1s of a replica that entered its view by a timeout certificate are accepted |
| DiskRecovery.DiskKeepsLockAndLedger | src/consensus/sleepyRec.go:304-328 | after any run of handlers, ECHO2s included, and restarts at PersistCritical, a restart fails because nothing was ever locked, or returns the lock as it was with curBlock = lockedBlock, and of the ledger everything but entries that came in ECHO2s: all of it when none arrived |
| DiskRecovery.RestartReturnsState | src/consensus/sleepyRec.go:304-328 | a restart is fatal exactly when no lock was written; otherwise the lock comes back, the ledger but for entries that came in ECHO2s, and the view is 1 |
| DiskRecovery.RestartedViewIsFreshIff | src/consensus/hotstuff.go:93-93 | the view after a restart from disk exceeds the one before exactly when that was 0 |
| DiskRecovery.RunKeepsDurable | src/consensus/hotstuff.go:735-748 | after any run every stored entry is in memory, every entry in memory is stored or came in an ECHO2, and the stored lock is the lock once one was written |
| HashChain.EqualHashesBindHistory | src/consensus/hotstuff.go:198-213 | equal block hashes of two proposal histories mean equal lengths, sequence numbers and joined batches at every position, or two different strings among those hashed have the same SHA-256 |
| HashChain.DigestsBindHistory | src/consensus/hotstuff.go:142-145 | the digest terms of the replica model are equal exactly when the histories are the same |
| HashChain.IntToBytesInjective | src/utils/utils.go:135-140 | the eight bytes of a 64-bit integer determine it |
| HashChain.GenBatchHash | src/cryptolib/hash.go:122-129 | the loop computes the hash of the joined requests, and the empty string for an empty batch |
| Buffers.CertificatesMirrorVotes | src/quorum/def.go:53-262 | over any history of signed votes and clears, signature and id lists are parallel, ids distinct and equal to the buffered voters |
| Buffers.AddVoteMirrors | src/quorum/def.go:222-254 | one vote keeps that exactly when it is signed or repeated |
| Buffers.VoteBuffer.InsertValue | src/quorum/def.go:222-254 | buffers the voter, and extends the certificate for a new voter with a signature |
| Buffers.VoteBuffer.InsertCertificate | src/quorum/def.go:53-62 | appends signature and id in parallel |
| Buffers.VoteBuffer.ClearBufferPC | src/quorum/quorum.go:121-125 | forgets voters and certificate of one hash, and nothing else |
| Buffers.VoteBuffer.GetLen | src/quorum/def.go:264-273 | the number of distinct voters |
| Buffers.IntBuffer.InsertValue | src/quorum/def.go:116-135 | keeps one message per sender and number |
| Buffers.VotersSinceClear | src/quorum/def.go:222-287 | over any history the voters of a hash are exactly those added since it was last cleared |
| Buffers.CollectsFirsts | src/quorum/def.go:116-135 | after any sequence of inserts the senders of a number are all that came, and its messages are each sender's first, in order |
| Buffers.IntBuffer.InsertV | src/quorum/def.go:152-156 | replaces the list of one number and leaves its senders |
| Buffers.IntBuffer.GetLen | src/quorum/def.go:174-183 | the number of distinct senders |
| Quorums.SleepyQuorumIntersects | src/consensus/sleepyRec.go:30-71 | in every accepted sleepy configuration two vote quorums, and a vote and a recovery quorum where one is set, share at least f + 1 replicas |
| Quorums.MemoryRegimesIntersect | src/quorum/quorum.go:226-239 | every accepted configuration with recovery in memory meets the intersection conditions of the run theorems |
| Quorums.SleepyQuorumReachable | src/consensus/sleepyRec.go:30-71 | in every accepted configuration n - f replicas make a vote quorum, with s of them asleep where the regime allows it, and those awake make a recovery quorum |
| Quorums.AcceptedIsLeast | src/consensus/sleepyRec.go:30-71 | a configuration is accepted exactly at the least number of replicas at which the quorums of its regime, by their sizes, share f + 1 replicas |
| Quorums.PlainQuorumIntersects | src/quorum/quorum.go:210-218 | two plain quorums share f + 1 replicas, and no smaller size has this bound |
| Quorums.QuorumSystem.StartQuorum | src/quorum/quorum.go:210-224 | the plain sizes, with truncating division, and the small quorum f + 1; the recovery quorum stays and every buffer is emptied |
| Quorums.QuorumSystem.StartSleepyHotstuffQuorum | src/quorum/quorum.go:226-244 | the sizes of each regime; the one without a recovery quorum leaves the one in force, the small quorum stays, and every buffer is emptied |
| RequestQueue.Queue.GrabWithMaxLenAndClear | src/consensus/queue.go:84-95 | batch and rest together are the queue before, and the batch has the maximum size or all there was |
| RequestQueue.Queue.AppendBatch | src/consensus/queue.go:61-67 | appends all items in order |
| RequestQueue.Queue.Append | src/consensus/queue.go:46-50 | appends one item |
| DurableStore.RecoversIff | src/db/def.go:48-82 | after any later writes under other keys a value comes back as written exactly when the level stores it and reads its key back, or the store held it already |
| DurableStore.Store.PersistValue | src/db/def.go:48-58 | writes exactly when the configured level is no laxer than the value's |
| DurableStore.Store.RecoverValue | src/db/def.go:60-82 | reads nothing at NoPersist and only three keys at PersistCritical |
| ReplicaNode.Node.constructor | src/consensus/hotstuff.go:66-111 | a new object stands for the initial replica |
| ReplicaNode.Node.SetView | src/consensus/viewchange.go:69-81 | view, leader flag and stored view change together |
| ReplicaNode.Node.TimeoutHandler | src/consensus/viewchange.go:92-133 | the whole new state and messages of an expired timer: nothing while asleep, a view change when the view is persisted, a signed TIMEOUT otherwise |
| ReplicaNode.Node.HandleTimeoutMsg | src/consensus/viewchange.go:135-175 | the TIMEOUT is collected once per sender and a quorum yields a TQC |
| ReplicaNode.Node.VerifyTQC | src/consensus/viewchange.go:177-201 | the loop accepts exactly the lists of at least a quorum of TIMEOUTs of the view with distinct sources and valid signatures, and anything for a negative view |
| ReplicaNode.Node.HandleTQCMsg | src/consensus/viewchange.go:204-241 | a verified TQC at or above the view moves the replica one above it, is stored once and passed on |
| ReplicaNode.Node.StartViewChange | src/consensus/viewchange.go:247-272 | entering view v + 1, with the VIEWCHANGE sent and the timer armed at a follower |
| ReplicaNode.Node.VerifyQC | src/consensus/viewchange.go:321-344 | accepts exactly nil hashes and parallel lists of at least quorum length, whatever the signatures |
| ReplicaNode.Node.HandleQCVCMessage | src/consensus/viewchange.go:346-411 | a VIEWCHANGE for this leader is collected, its block adopted when no lower, and a quorum makes the replica lead |
| ReplicaNode.Node.RequestMonitor | src/consensus/events.go:98-145 | proposes only as READY leader of the view with something to propose, taking one batch |
| ReplicaNode.Node.StartHotStuff | src/consensus/hotstuff.go:123-159 | the proposal's number, chained hash, parent block and batch, and what is recorded of it |
| ReplicaNode.Node.VerifyBlock | src/consensus/hotstuff.go:308-326 | the first block is accepted when new or one's own, others when not below the lock with a full certificate |
| ReplicaNode.Node.ProcessQCInfo | src/consensus/hotstuff.go:714-791 | the chain, on disk and in memory, after a certified block: stale blocks change nothing, others commit, lock and prepare |
| ReplicaNode.Node.HandleNormalMsg | src/consensus/hotstuff.go:328-409 | the state and the votes after a proposal; a leader votes to itself too |
| ReplicaNode.Node.BlockEntries | src/consensus/hotstuff.go:855-878 | the loop lists the coinbase and then the batch's requests |
| ReplicaNode.Node.HandleNormalRepMsg | src/consensus/hotstuff.go:795-890 | a valid vote is added once and a quorum makes the block current, one above the old one |
| ReplicaNode.Node.HandleRequest | src/consensus/events.go:148-162 | appends the request to the queue and changes nothing else |
| ReplicaNode.Node.HandleBatchRequest | src/consensus/events.go:164-188 | appends the requests in order and changes nothing else |
| ReplicaNode.Node.HandleRec1Msg | src/consensus/sleepyRec.go:115-134 | answers with the certificate of the view below its own and changes nothing |
| ReplicaNode.Node.HandleEcho1Msg | src/consensus/sleepyRec.go:136-170 | a verified answer to the current request raises hView and the count, and a recovery quorum is marked |
| ReplicaNode.Node.AskForState | src/consensus/sleepyRec.go:175-194 | after the wait, REC2 names the view reached and becomes the current request |
| ReplicaNode.Node.HandleRec2Msg | src/consensus/sleepyRec.go:199-227 | answers with block, lock and ledger and changes nothing |
| ReplicaNode.Merged | src/consensus/sleepyRec.go:236-243 | the loop adds exactly the entries not yet committed |
| ReplicaNode.Node.HandleEcho2Msg | src/consensus/sleepyRec.go:229-302 | the ledger is merged whatever the status; a matching answer raises block and lock and a recovery quorum makes the replica READY |
| ReplicaNode.Node.InitHotStuff | src/consensus/hotstuff.go:66-111 | re-initialisation resets volatile protocol state and keeps ledger, queue, timers and disk, except the stored view |
| ReplicaNode.Node.FallAsleep | src/consensus/test_sleepy_hotstuff.go:81-90 | the status becomes SLEEPING |
| ReplicaNode.Node.WakeInMemory | src/consensus/test_sleepy_hotstuff.go:91-95 | a sleeping replica is re-initialised, starts recovering with hView -2 and sends REC1 |
| ReplicaNode.Node.WakeFromDisk | src/consensus/sleepyRec.go:73-89 | the whole state after recovery from disk, or the fatal error |
| ReplicaNode.Node.HandleQCByteMsg | src/consensus/hotstuff.go:246-292 | what a sleeping or recovering replica drops, and otherwise the effect of the message's handler |
| Words.BiginttoU64_256 | src/threshprf/prf_p256.go:13-32 | the loops give four limbs denoting the magnitude modulo 2^256, so the number itself below 2^256 |
| Words.U64toBigint_256 | src/threshprf/prf_p256.go:34-48 | the number the limbs denote |
| Words.BytetostringIsIdentity | src/threshprf/prf_p256.go:50-58 | converting a digest through limbs leaves it as it is |
| Words.BytesOfLimbs | src/threshprf/word/word_amd64.s:22-42 | the bytes of the limbs are the 32 big-endian bytes of the number |
| Words.LimbsOfBytes | src/threshprf/word/word_amd64.s:44-61 | the limbs of 32 bytes denote the number of the bytes and give the bytes back |
| Words.LimbsRoundTrip | src/threshprf/word/word_amd64.s:22-61 | limbs to bytes and back is the identity |
| Modular.ModInverseIff | src/threshprf/prf_p256.go:176-176 | the extended Euclidean algorithm finds an inverse in range exactly when there is one |
| Interpolation.LagrangeInterpolates | src/threshprf/prf_p256.go:136-189 | for every coefficient list of length k, k ids distinct modulo the prime and target, the coefficients take the values at the ids to the value at the target |
| Interpolation.DenominatorIsUnit | src/threshprf/prf_p256.go:160-176 | for ids distinct modulo the prime every inverse taken exists |
| Interpolation.LambdaIsCoefficient | src/threshprf/prf_p256.go:176-178 | the coefficient times its denominator is its numerator modulo the prime |
| ThresholdPrf.DealKey | src/threshprf/prf_p256.go:91-116 | the dealer's loop, with its first coefficient unreduced, computes the polynomial at the party modulo the order |
| ThresholdPrf.GenKeyDealer | src/threshprf/prf_p256.go:64-131 | every party's key limbs denote the polynomial's value and its public limbs that multiple of the generator |
| ThresholdPrf.Fraction | src/threshprf/prf_p256.go:158-175 | the inner loop computes both products over the other ids modulo the order |
| ThresholdPrf.ComputeLagrangeinter | src/threshprf/prf_p256.go:136-189 | nothing when ids are missing, otherwise the limbs of every coefficient of the first k ids |
| ThresholdPrf.KeysInterpolate | src/threshprf/prf_p256.go:90-189 | for any k distinct parties and any target, the coefficients take their keys to the polynomial's value at the target |
| ThresholdPrf.ComputePrfFromShares | src/threshprf/prf_p256.go:420-472 | the loop computes the hash of the encoded combination of the first k share points, and panics exactly when ids or shares are missing or one of those points is off the curve |
| ThresholdPrf.SubsetIndependence | src/threshprf/prf_p256.go:420-455 | whichever k distinct parties answer, in any order, the combined point is party 0's share point |
| ShareProof.PrfIsPartyZeros | src/threshprf/prf_p256.go:258-472 | with shares as the program computes them, under any nonces, the combined point is party 0's key times the input's point |
| ShareProof.SubsetsAgree | src/threshprf/test.go:176-190 | two choices of k distinct parties obtain the same output |
| ShareProof.HashmapPoint | src/threshprf/prf_p256.go:232-250 | the limbs of the generator times the input's hash, and zeros for the empty input |
| ShareProof.ComputeShare | src/threshprf/prf_p256.go:258-336 | nothing for the empty input, otherwise share point, challenge and response |
| ShareProof.VerifyShare | src/threshprf/prf_p256.go:343-418 | rejects empty arguments; otherwise panics exactly when key or share point is off the curve or its product by the challenge is infinity, and accepts exactly when the challenge is the hash recomputed from key and share |
| ShareProof.ShareIsAccepted | src/threshprf/prf_p256.go:343-418 | a computed share has 128 bytes and passes the check whenever key, input hash and challenge are not 0 modulo the order |
| ShareProof.ResponseUndoes | src/threshprf/prf_p256.go:364-371 | subtracting the challenge's multiple from the response's leaves the nonce's multiple |
| ShareSoundness.ChallengeBinds | src/threshprf/prf_p256.go:343-418 | two accepted shares with equal challenge bytes have equal keys, input points, share points and recomputed commitments, or two different strings hashed have the same hash |
| ShareSoundness.SpecialSoundness | src/threshprf/prf_p256.go:364-396 | two accepted shares of one key, input point and share point with the same commitments and challenges different modulo the order have one k that makes the key k times the generator and the share point k times the input's point |
| ShareSoundness.InputPointBinds | src/threshprf/prf_p256.go:232-250 | the points of two inputs are equal exactly when the inputs' hashes are equal modulo the order |
| Curves.TimesMod | src/threshprf/prf_p256.go:322-325 | scalars count modulo the order of the group |
| Curves.PointRoundTrip | src/threshprf/prf_p256.go:440-446 | a point of the curve survives encoding by limbs and decoding |

## Left out

- Freshness.RecoveredViewsAreFresh: supposes that no ECHO2 naming a REC1 has completed a shared count, because then the property can fail (EarlyReturns.StaleRun); Freshness.ReturnsAreFreshIff gives the exact condition on a run.
- VoteViews.CertifiedVotesWereCastInView: leaves the proposer's own vote aside, because a leader also votes to itself for another's proposal with the same hash.
- VoteViews.HeldBlocksWereCertified: supposes that every replica follows the code, because a carried block is not checked against its signatures.
- Certs.RunCerts: supposes that no late certificate is completed, because a late one names a view its votes were not cast in (VoteViews.CertifiedVotesWereCastInView, EchoedRuns.CertificateOutlivesItsView).
- Locks.LocksNeverBlock: supposes that every replica follows the code, because heights are not authenticated, and that no late certificate is completed, because one can let a lock end above a new leader (EchoedRuns.LockBlocksNewLeader).
- Ledgers.LedgerIsOrdered: supposes that a leader handles only its own proposals, because otherwise the order fails (Pipeline.ProcessKeepsOrder gives the exact condition of one step).
- Ledgers.LedgerIsWriteOnce: supposes the same, because out of order an entry can change (Pipeline.EntryOverwritten).
- Evidence.HeldBlocksAreCertificates: supposes that proposals numbered 1 carry the initial block, because a follower takes the block of the first one it sees unchecked (Evidence.BareBlockAdoptedIff is exact).
- Evidence.CertificateHoldsItsBatch: supposes that the vote's number is of an outstanding proposal, because the code compares hashes only then.
- StateTransfer.RecoveredStateDominates: supposes that every replica follows the code, because an ECHO2 carries unauthenticated heights.
- StoredCerts.MarkedCertificatesVerify: supposes validly signed TIMEOUTs, because the handler that collects them does not check signatures.
- DiskRecovery.DiskKeepsLockAndLedger: says nothing of the view, because initialisation overwrites the stored view before it is read (DiskRecovery.RestartedViewIsFreshIff).
- ShareProof.ShareIsAccepted: supposes scalars that are not 0 modulo the order, because the program's negation P - y does not cover the point at infinity.
- ShareSoundness.SpecialSoundness: takes two hash functions, as a function answers equal commitments with one challenge; that a prover cannot predict the challenge is not modelled.
- ShareProof.VerifyShare: supposes keys of 32 bytes a coordinate and shares of 128 bytes or more, as the code does when it slices them.
- ThresholdPrf.ComputePrfFromShares: supposes shares of 64 bytes or more, as the code does when it slices them.
- ThresholdPrf.GenKeyDealer: the random coefficients are a parameter.
- Agreement of ledgers across view changes, voting once, and signature soundness of VerifyQC: not what this code establishes.
- Liveness, timer durations and the scheduling of busy waits: the code encodes no fairness.
- The NEWVIEW path: nothing sends that message.
- NoRec recovery and disk recovery at PersistAll: the first deliberately forgets state, the second is a TODO.
- votedBlocks, vcAwaitingVotes, awaitingDecision, receivedBlocksSet and the votes of the commit buffer bufferc: written but never read where it matters.
- Values persisted at level PersistAll only: never read back by the modelled recovery.
- gRPC, connection handling and serialisation: replaced by a set of messages; encoding and decoding of messages are the identity.
- ECDSA, AES, HMAC, Merkle trees and key files: a signature is a term naming signer and statement.
- Evaluation, logging, JSON export and scripts: reporting.
- Queue members other than Append, AppendBatch, GrabWithMaxLenAndClear and IsEmpty, and the set and map wrappers of src/utils: easy members.
- Compute_prf, Verify_lagrange and the file-loading wrappers: the same computations on stored inputs.
