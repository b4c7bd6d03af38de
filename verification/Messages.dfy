/** The values replicas exchange and store: blocks, certificates, signatures
    and the wire messages of the protocol.

    Hashes are terms: two digests are equal exactly when the values hashed into
    them are.  Module HashChain shows what that idealisation rests on. */
module Messages {

  datatype Option<+T> = None | Some(value: T)

  type Byte = x: int | 0 <= x < 256
  type Bytes = seq<Byte>

  /** The hash of a block: the hash of its predecessor in the proposer's chain,
      its sequence number, and the joined bytes of its batch.  NoHash is nil. */
  datatype Digest = NoHash | Chained(prev: Digest, num: int, payload: Bytes)

  /** An entry of a block: the proposer's coinbase, or a parsed client request. */
  datatype Tx = Coinbase(owner: int) | FromRequest(raw: Bytes)

  /** What a signature is over. */
  datatype Statement = VoteOn(block: Digest) | Wire(kind: Kind, source: int, view: int)

  datatype Kind = TimeoutKind | OtherKind

  datatype Signature = Signed(signer: int, over: Statement) | Forged

  predicate VerifySig(source: int, st: Statement, sig: Signature) {
    sig == Signed(source, st)
  }

  /** A serialised message with its sender's signature, as carried in a
      timeout certificate. */
  datatype SignedMsg = SignedMsg(kind: Kind, source: int, view: int, sig: Signature)

  datatype QCBlock = QCBlock(
    view: int,
    height: int,
    hash: Digest,
    preHash: Digest,
    prePreHash: Digest,
    qc: seq<Signature>,
    ids: seq<int>,
    txs: seq<Tx>)

  const ZERO_BLOCK := QCBlock(0, 0, NoHash, NoHash, NoHash, [], [], [])

  /** The identity (hash) of a recovery request. */
  datatype RecRequest = FirstRequest(asker: int, ts: int) | SecondRequest(asker: int, ts: int, atView: int)

  type Ledger = map<int, QCBlock>

  datatype Msg =
    | Proposal(src: int, view: int, num: int, hash: Digest, qc: QCBlock, ops: seq<Bytes>)
    | Vote(src: int, dst: int, view: int, num: int, hash: Digest, sig: Signature)
    | Timeout(src: int, view: int, sig: Signature)
    | TQC(src: int, view: int, v: seq<SignedMsg>)
    | ViewChange(src: int, dst: int, view: int, block: QCBlock)
    | Rec1(src: int, ts: int)
    | Echo1(src: int, dst: int, view: int, req: RecRequest, v: seq<SignedMsg>)
    | Rec2(src: int, ts: int, view: int)
    | Echo2(src: int, dst: int, req: RecRequest, prepared: QCBlock, locked: QCBlock, ledger: Ledger)

  /** The signed TIMEOUT message of replica p for view v. */
  function TimeoutBy(p: int, v: int): Msg {
    Timeout(p, v, Signed(p, Wire(TimeoutKind, p, v)))
  }

  function Join(ops: seq<Bytes>): Bytes {
    if ops == [] then [] else ops[0] + Join(ops[1..])
  }

  function ParseAll(ops: seq<Bytes>): seq<Tx> {
    seq(|ops|, i requires 0 <= i < |ops| => FromRequest(ops[i]))
  }
}
