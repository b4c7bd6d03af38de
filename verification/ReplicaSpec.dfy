/** One replica as a value, and each handler as a function from the replica and
    a message to the new replica and the messages it sends. */
module ReplicaSpec {
  import opened Messages
  import opened Quorums
  import opened Buffers

  datatype Status = READY | PROCESSING | VIEWCHANGE | SLEEPING | RECOVERING

  /** Keys that package consensus marks PREPARED once a quorum was collected. */
  datatype Marker =
    | BlockCert(hash: Digest)
    | TimeoutCert(view: int)
    | ViewCert(view: int)
    | FirstEchoes(req: RecRequest)
    | SecondEchoes(req: RecRequest)

  /** What a replica knows of the chain, with the copies in its durable store. */
  datatype Chain = Chain(
    sequence: int,
    curHash: Digest,
    curBlock: QCBlock,
    lockedBlock: QCBlock,
    committed: Ledger,
    awaitingCopy: set<int>,
    diskLocked: Option<QCBlock>,
    diskCommitted: Option<Ledger>)

  /** The client requests and the proposals waiting for votes. */
  datatype Pending = Pending(queue: seq<Bytes>, awaiting: map<int, Digest>, awaitingTxs: map<int, seq<Bytes>>)

  datatype Recovery = Recovery(hView: int, reqHash: Option<RecRequest>, recCount: map<RecRequest, nat>)

  /** Goroutines spawned so far: request monitors and armed timers, by view. */
  datatype Spawned = Spawned(monitors: set<int>, timers: set<int>)

  datatype Replica = Replica(
    id: int,
    status: Status,
    view: int,
    leader: bool,
    diskView: Option<int>,
    chain: Chain,
    pending: Pending,
    prepared: set<Marker>,
    votes: VoteBook,
    vcs: IntBook<Msg>,
    timeouts: IntBook<SignedMsg>,
    rec: Recovery,
    spawned: Spawned)

  datatype Out = Out(r: Replica, sent: set<Msg>)

  predicate Active(r: Replica) {
    r.status == READY || r.status == PROCESSING || r.status == VIEWCHANGE
  }

  /** Point-to-point sends to oneself are dropped by the sender. */
  function SendTo(r: Replica, m: Msg, dst: int): set<Msg> {
    if dst == r.id then {} else {m}
  }

  function Persist<T>(c: Config, level: PersistLevel, value: T, stored: Option<T>): Option<T> {
    if Rank(c.level) <= Rank(level) then Some(value) else stored
  }

  // ----- views -----

  function SetView(c: Config, r: Replica, v: int): Replica {
    r.(view := v,
       leader := LeaderID(c, v) == r.id,
       diskView := Persist(c, PersistCritical, v, r.diskView))
  }

  function StartViewChange(c: Config, r: Replica, v: int): Out {
    if v < r.view then Out(r, {})
    else
      var lead := LeaderID(c, v + 1) == r.id;
      Out(SetView(c, r, v + 1).(
            status := if lead then VIEWCHANGE else READY,
            pending := r.pending.(awaiting := map[]),
            spawned := if lead then r.spawned else r.spawned.(timers := r.spawned.timers + {v + 1})),
          {ViewChange(r.id, LeaderID(c, v + 1), v + 1, r.chain.curBlock)})
  }

  function OnTimer(c: Config, r: Replica, v: int): Out {
    if r.status == SLEEPING || r.status == RECOVERING then Out(r, {})
    else if c.level != NoPersist then StartViewChange(c, r, v)
    else if v < r.view then Out(r, {})
    else Out(r.(status := VIEWCHANGE), {TimeoutBy(r.id, v)})
  }

  function OnTimeout(c: Config, r: Replica, m: Msg): Out
    requires m.Timeout?
  {
    if m.view < r.view || TimeoutCert(m.view) in r.prepared then Out(r, {})
    else
      var book := Collect(r.timeouts, m.view, m.src, SignedMsg(TimeoutKind, m.src, m.view, m.sig));
      if |SendersOf(book, m.view)| >= c.quorum then
        Out(r.(timeouts := book, prepared := r.prepared + {TimeoutCert(m.view)}),
            {TQC(r.id, m.view, MsgsOf(book, m.view))})
      else Out(r.(timeouts := book), {})
  }

  /** The checks VerifyTQC makes on one entry, given the sources before it. */
  predicate EntryOk(v: int, sm: SignedMsg, seen: set<int>) {
    && sm.source !in seen && sm.view == v && sm.kind == TimeoutKind
    && VerifySig(sm.source, Wire(sm.kind, sm.source, sm.view), sm.sig)
  }

  function SourcesOf(tqc: seq<SignedMsg>): set<int> {
    set sm | sm in tqc :: sm.source
  }

  predicate EntriesOk(v: int, tqc: seq<SignedMsg>) {
    forall i :: 0 <= i < |tqc| ==> EntryOk(v, tqc[i], SourcesOf(tqc[..i]))
  }

  predicate VerifyTQC(c: Config, v: int, tqc: seq<SignedMsg>) {
    v < 0 || (|tqc| >= c.quorum && EntriesOk(v, tqc))
  }

  function OnTQC(c: Config, r: Replica, m: Msg): Out
    requires m.TQC?
  {
    if !VerifyTQC(c, m.view, m.v) || m.view < r.view then Out(r, {})
    else
      var o := if r.status == RECOVERING then Out(SetView(c, r, m.view + 1), {})
               else StartViewChange(c, r, m.view);
      if TimeoutCert(m.view) in o.r.prepared then o
      else Out(o.r.(timeouts := Replace(o.r.timeouts, m.view, m.v),
                    prepared := o.r.prepared + {TimeoutCert(m.view)}),
               o.sent + {m})
  }

  predicate VerifyQC(c: Config, b: QCBlock) {
    b.hash == NoHash || (|b.qc| == |b.ids| && |b.qc| >= c.quorum)
  }

  function UpdateSeq(ch: Chain, num: int): Chain {
    if num > ch.sequence then ch.(sequence := num) else ch
  }

  function AdoptBlock(ch: Chain, b: QCBlock): Chain {
    if b.hash != NoHash && b.height >= ch.curBlock.height
    then UpdateSeq(ch.(curBlock := b), b.height) else ch
  }

  function OnViewChange(c: Config, r: Replica, m: Msg): Out
    requires m.ViewChange?
  {
    if m.view < r.view || (m.view != r.view && m.view != r.view + 1)
       || LeaderID(c, m.view) != r.id || !VerifyQC(c, m.block)
       || ViewCert(m.view) in r.prepared
    then Out(r, {})
    else
      var book := Collect(r.vcs, m.view, m.src, m);
      var r1 := r.(vcs := book, chain := AdoptBlock(r.chain, m.block));
      if r.status != READY && |SendersOf(book, m.view)| >= c.quorum then
        Out(SetView(c, r1, m.view).(
              prepared := r.prepared + {ViewCert(m.view)},
              status := READY,
              spawned := Spawned(r.spawned.monitors + {m.view},
                                 if c.viewChange then r.spawned.timers + {m.view} else r.spawned.timers)), {})
      else Out(r1, {})
  }

  // ----- proposals and votes -----

  predicate CanPropose(c: Config, r: Replica) {
    && r.view in r.spawned.monitors
    && LeaderID(c, r.view) == r.id
    && r.status == READY
    && (r.chain.awaitingCopy != {} || r.pending.queue != [])
  }

  /** The batch a proposal takes from the queue, and what it leaves. */
  function Grab(c: Config, queue: seq<Bytes>): (seq<Bytes>, seq<Bytes>) {
    if |queue| > c.maxBatch then (queue[..c.maxBatch], queue[c.maxBatch..]) else (queue, [])
  }

  function FetchBlockInfo(ch: Chain, num: int): QCBlock {
    if num == 1 || ch.curBlock.height == 0 then ZERO_BLOCK else ch.curBlock
  }

  function Propose(c: Config, r: Replica): Out {
    if !CanPropose(c, r) then Out(r, {})
    else
      var (batch, rest) := Grab(c, r.pending.queue);
      var num := r.chain.sequence + 1;
      var hash := Chained(r.chain.curHash, num, Join(batch));
      Out(r.(status := PROCESSING,
             chain := r.chain.(sequence := num, curHash := hash, awaitingCopy := r.chain.awaitingCopy + {num}),
             pending := Pending(rest, r.pending.awaiting[num := hash], r.pending.awaitingTxs[num := batch])),
          {Proposal(r.id, r.view, num, hash, FetchBlockInfo(r.chain, num), batch)})
  }

  predicate VerifyBlock(c: Config, r: Replica, num: int, source: int, b: QCBlock) {
    || (num == 1 && (r.chain.sequence < num || source == r.id))
    || (b.height >= r.chain.lockedBlock.height && |b.qc| >= c.quorum && VerifyQC(c, b))
  }

  /** Deliver the locked block when the certified block is two above it. */
  function Commit(c: Config, ch: Chain, b: QCBlock): Chain {
    var ledger := if b.height >= ch.lockedBlock.height + 2
                  then ch.committed[ch.lockedBlock.height := ch.lockedBlock] else ch.committed;
    ch.(committed := ledger, diskCommitted := Persist(c, PersistCritical, ledger, ch.diskCommitted))
  }

  function Lock(c: Config, ch: Chain): Chain {
    ch.(lockedBlock := ch.curBlock, diskLocked := Persist(c, PersistCritical, ch.curBlock, ch.diskLocked))
  }

  predicate Stale(ch: Chain, b: QCBlock) {
    b.height >= 2 && b.height <= ch.curBlock.height
  }

  /** ProcessQCInfo at a replica whose leader flag is as given. */
  function ProcessQCInfo(c: Config, leader: bool, ch: Chain, b: QCBlock, num: int): Chain {
    if Stale(ch, b) then ch
    else
      var ch1 := if b.height >= 2 then Lock(c, if b.height >= 3 then Commit(c, ch, b) else ch) else ch;
      var ch2 := if !leader && b.height > ch.curBlock.height
                 then ch1.(curBlock := b, curHash := b.hash) else ch1;
      UpdateSeq(if num > 3 then ch2.(awaitingCopy := ch2.awaitingCopy - {num - 3}) else ch2, num)
  }

  function OnProposal(c: Config, r: Replica, m: Msg): Out
    requires m.Proposal?
  {
    if m.view < r.view || r.status == VIEWCHANGE then Out(r, {})
    else
      var ch := if r.leader then r.chain
                else r.chain.(awaitingCopy := r.chain.awaitingCopy + {m.num});
      if !VerifyBlock(c, r, m.num, m.src, m.qc) then Out(r.(chain := ch), {})
      else
        var sig := Signed(r.id, VoteOn(m.hash));
        Out(r.(chain := ProcessQCInfo(c, r.leader, ch, m.qc, m.num)),
            SendTo(r, Vote(r.id, m.src, r.view, m.num, m.hash, sig), m.src)
            + (if r.leader then {Vote(r.id, r.id, r.view, m.num, m.hash, sig)} else {}))
  }

  function AwaitingHash(p: Pending, num: int): Digest {
    if num in p.awaiting then p.awaiting[num] else NoHash
  }

  function BlockTxs(owner: int, p: Pending, num: int): seq<Tx> {
    if num in p.awaitingTxs then [Coinbase(owner)] + ParseAll(p.awaitingTxs[num]) else []
  }

  function Certificate(r: Replica, book: VoteBook, num: int, hash: Digest): QCBlock {
    QCBlock(r.view, r.chain.curBlock.height + 1, hash,
            AwaitingHash(r.pending, num - 1), AwaitingHash(r.pending, num - 2),
            SigsOf(book, hash), IdsOf(book, hash), BlockTxs(r.id, r.pending, num))
  }

  function OnVote(c: Config, r: Replica, m: Msg): Out
    requires m.Vote?
  {
    if m.view < r.view || r.status == VIEWCHANGE
       || (m.num in r.pending.awaiting && r.pending.awaiting[m.num] != m.hash)
       || !VerifySig(m.src, VoteOn(m.hash), m.sig)
       || BlockCert(m.hash) in r.prepared
    then Out(r, {})
    else
      var book := AddVote(r.votes, m.hash, m.src, Some(m.sig));
      if |VotersOf(book, m.hash)| >= c.quorum then
        Out(r.(votes := book,
               prepared := r.prepared + {BlockCert(m.hash)},
               chain := r.chain.(curBlock := Certificate(r, book, m.num, m.hash)),
               status := READY), {})
      else Out(r.(votes := book), {})
  }

  // ----- recovery -----

  function OnRec1(c: Config, r: Replica, m: Msg): Out
    requires m.Rec1?
  {
    Out(r, SendTo(r, Echo1(r.id, m.src, r.view - 1, FirstRequest(m.src, m.ts),
                           MsgsOf(r.timeouts, r.view - 1)), m.src))
  }

  function CountOf(rec: Recovery, req: RecRequest): nat {
    if req in rec.recCount then rec.recCount[req] else 0
  }

  function OnEcho1(c: Config, r: Replica, m: Msg): Out
    requires m.Echo1?
  {
    if r.status != RECOVERING || r.rec.reqHash != Some(m.req) || FirstEchoes(m.req) in r.prepared
       || !VerifyTQC(c, m.view, m.v)
    then Out(r, {})
    else
      var num := CountOf(r.rec, m.req) + 1;
      Out(r.(rec := r.rec.(hView := if m.view > r.rec.hView then m.view else r.rec.hView,
                           recCount := r.rec.recCount[m.req := num]),
             prepared := if num >= c.recQuorum then r.prepared + {FirstEchoes(m.req)} else r.prepared), {})
  }

  /** The busy wait of HandleEcho1Msg is over. */
  predicate WaitIsOver(r: Replica) {
    && r.status == RECOVERING && r.rec.reqHash.Some?
    && FirstEchoes(r.rec.reqHash.value) in r.prepared
    && r.view > r.rec.hView + 2
  }

  /** What HandleEcho1Msg does after the wait: ask for the replicas' state. */
  function AskState(c: Config, r: Replica, ts: int): Out {
    if !WaitIsOver(r) then Out(r, {})
    else Out(r.(rec := r.rec.(reqHash := Some(SecondRequest(r.id, ts, r.view)))), {Rec2(r.id, ts, r.view)})
  }

  function OnRec2(c: Config, r: Replica, m: Msg): Out
    requires m.Rec2?
  {
    Out(r, SendTo(r, Echo2(r.id, m.src, SecondRequest(m.src, m.ts, m.view),
                           r.chain.curBlock, r.chain.lockedBlock, r.chain.committed), m.src))
  }

  /** Entries already committed are never overwritten. */
  function MergeLedger(mine: Ledger, other: Ledger): Ledger {
    other + mine
  }

  function TakeState(ch: Chain, prepared: QCBlock, locked: QCBlock): Chain {
    var ch1 := if prepared.hash != NoHash && prepared.height > ch.curBlock.height
               then UpdateSeq(ch.(curBlock := prepared), prepared.height) else ch;
    if locked.hash != NoHash && locked.height > ch.lockedBlock.height
    then ch1.(lockedBlock := locked) else ch1
  }

  function OnEcho2(c: Config, r: Replica, m: Msg): Out
    requires m.Echo2?
  {
    var ch := r.chain.(committed := MergeLedger(r.chain.committed, m.ledger));
    if r.status != RECOVERING || r.rec.reqHash != Some(m.req) || SecondEchoes(m.req) in r.prepared
       || !VerifyQC(c, m.prepared) || !VerifyQC(c, m.locked)
    then Out(r.(chain := ch), {})
    else
      var num := CountOf(r.rec, m.req) + 1;
      Out(r.(chain := TakeState(ch, m.prepared, m.locked),
             rec := r.rec.(recCount := r.rec.recCount[m.req := num]),
             prepared := if num >= c.recQuorum then r.prepared + {SecondEchoes(m.req)} else r.prepared,
             status := if num >= c.recQuorum then READY else RECOVERING), {})
  }

  // ----- sleeping and waking -----

  function Sleep(r: Replica): Out {
    Out(r.(status := SLEEPING), {})
  }

  function EmptyChain(c: Config, committed: Ledger, diskLocked: Option<QCBlock>, diskCommitted: Option<Ledger>): Chain {
    Chain(0, NoHash, ZERO_BLOCK, ZERO_BLOCK, committed, {}, diskLocked,
          if committed == map[] then Persist(c, PersistCritical, map[], diskCommitted) else diskCommitted)
  }

  /** InitHotStuff: volatile protocol state is reset; the ledger, the request
      queue, spawned goroutines and the disk survive. */
  function Reinit(c: Config, r: Replica): Replica {
    SetView(c,
      Replica(r.id, r.status, 0, false, r.diskView,
              EmptyChain(c, r.chain.committed, r.chain.diskLocked, r.chain.diskCommitted),
              Pending(r.pending.queue, map[], map[]), {}, EMPTY_VOTES, IntBook(map[], map[]),
              IntBook(map[], map[]), Recovery(r.rec.hView, r.rec.reqHash, map[]), r.spawned), 0)
  }

  /** Waking with in-memory recovery. */
  function Wake(c: Config, r: Replica, ts: int): Out {
    if r.status != SLEEPING then Out(r, {})
    else Out(Reinit(c, r).(status := RECOVERING, rec := Recovery(-2, Some(FirstRequest(r.id, ts)), map[])),
             {Rec1(r.id, ts)})
  }

  /** Waking with recovery from disk at level PersistCritical; None is the
      fatal error on a value the store does not hold. */
  function WakeFromDisk(c: Config, r: Replica): Option<Out> {
    if r.status != SLEEPING || c.level != PersistCritical then Some(Out(r, {}))
    else
      var r1 := Reinit(c, r).(status := RECOVERING, rec := Recovery(-2, None, map[]));
      if r1.diskView.None? || r1.chain.diskLocked.None? || r1.chain.diskCommitted.None? then None
      else
        var locked := r1.chain.diskLocked.value;
        var ch := r1.chain.(lockedBlock := locked, curBlock := locked, committed := r1.chain.diskCommitted.value);
        Some(StartViewChange(c, r1.(chain := ch), r1.diskView.value))
  }

  // ----- dispatch -----

  function Dispatch(c: Config, r: Replica, m: Msg): Out {
    match m
    case Proposal(_, _, _, _, _, _) => OnProposal(c, r, m)
    case Vote(_, _, _, _, _, _) => OnVote(c, r, m)
    case Timeout(_, _, _) => OnTimeout(c, r, m)
    case TQC(_, _, _) => OnTQC(c, r, m)
    case ViewChange(_, _, _, _) => OnViewChange(c, r, m)
    case Rec1(_, _) => OnRec1(c, r, m)
    case Echo1(_, _, _, _, _) => OnEcho1(c, r, m)
    case Rec2(_, _, _) => OnRec2(c, r, m)
    case Echo2(_, _, _, _, _, _) => OnEcho2(c, r, m)
  }

  function Receive(c: Config, r: Replica, m: Msg): Out {
    if r.status == SLEEPING then Out(r, {})
    else if r.status == RECOVERING && !m.Echo1? && !m.Echo2? && !m.TQC? then Out(r, {})
    else Dispatch(c, r, m)
  }

  datatype Event =
    | Deliver(m: Msg)
    | TimerFires(v: int)
    | ProposeBatch
    | ClientRequests(reqs: seq<Bytes>)
    | FallAsleep
    | WakeUp(ts: int)
    | FinishWait(ts: int)

  /** Every reaction of a replica in the in-memory recovery mode. */
  function Handle(c: Config, r: Replica, e: Event): Out {
    match e
    case Deliver(m) => Receive(c, r, m)
    case TimerFires(v) => OnTimer(c, r, v)
    case ProposeBatch => Propose(c, r)
    case ClientRequests(reqs) => Out(r.(pending := r.pending.(queue := r.pending.queue + reqs)), {})
    case FallAsleep => Sleep(r)
    case WakeUp(ts) => Wake(c, r, ts)
    case FinishWait(ts) => AskState(c, r, ts)
  }

  /** A replica before its first event. */
  function Fresh(c: Config, id: int): Replica {
    SetView(c,
      Replica(id, READY, 0, false, None, EmptyChain(c, map[], None, None), Pending([], map[], map[]), {},
              EMPTY_VOTES, IntBook(map[], map[]), IntBook(map[], map[]), Recovery(0, None, map[]),
              Spawned({0}, if c.viewChange then {0} else {})), 0)
  }
}
