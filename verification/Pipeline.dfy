/** The prepare/lock/commit pipeline of ProcessQCInfo: its closed form at a
    follower, and exactly when it keeps the ledger ordered. */
module Pipeline {
  import opened Messages
  import opened Quorums
  import opened ReplicaSpec

  /** A certified parent block with the sequence number of the proposal carrying it. */
  datatype Parent = Parent(block: QCBlock, num: int)

  function ProcessAll(c: Config, leader: bool, ch: Chain, ps: seq<Parent>): Chain {
    if ps == [] then ch
    else
      var last := ps[|ps| - 1];
      ProcessQCInfo(c, leader, ProcessAll(c, leader, ch, ps[..|ps| - 1]), last.block, last.num)
  }

  /** The k-th block is higher than every block before it. */
  ghost predicate IsRecord(ps: seq<Parent>, k: int) {
    0 <= k < |ps| && ps[k].block.height > 0 && forall j :: 0 <= j < k ==> ps[j].block.height < ps[k].block.height
  }

  ghost function Records(ps: seq<Parent>): (rs: seq<QCBlock>) {
    if ps == [] then []
    else Records(ps[..|ps| - 1]) + (if IsRecord(ps, |ps| - 1) then [ps[|ps| - 1].block] else [])
  }

  function Top(rs: seq<QCBlock>): int {
    if rs == [] then 0 else rs[|rs| - 1].height
  }

  ghost predicate Rising(rs: seq<QCBlock>) {
    && (forall i :: 0 <= i < |rs| ==> rs[i].height >= i + 1)
    && (forall i, j :: 0 <= i < j < |rs| ==> rs[i].height < rs[j].height)
  }

  /** The last record is the highest of all blocks, or 0 when none is positive. */
  ghost predicate TopOf(ps: seq<Parent>, top: int) {
    && 0 <= top
    && (forall j :: 0 <= j < |ps| ==> ps[j].block.height <= top)
    && (top > 0 ==> exists j :: 0 <= j < |ps| && ps[j].block.height == top)
  }

  lemma RecordIffAboveTop(ps: seq<Parent>, top: int)
    requires ps != [] && TopOf(ps[..|ps| - 1], top)
    ensures IsRecord(ps, |ps| - 1) <==> ps[|ps| - 1].block.height > top
    ensures TopOf(ps, if IsRecord(ps, |ps| - 1) then ps[|ps| - 1].block.height else top)
  {
    var pre, n := ps[..|ps| - 1], |ps| - 1;
    assert forall j :: 0 <= j < n ==> pre[j] == ps[j];
    if top > 0 {
      var j :| 0 <= j < |pre| && pre[j].block.height == top;
      assert ps[j].block.height == top;
    }
  }

  lemma RisingAppend(rs: seq<QCBlock>, b: QCBlock)
    requires Rising(rs) && b.height > Top(rs)
    ensures Rising(rs + [b])
  {
  }

  /** Records rise, and the last one is the highest block delivered. */
  lemma {:induction false} RecordsRise(ps: seq<Parent>)
    ensures Rising(Records(ps)) && TopOf(ps, Top(Records(ps)))
  {
    if ps == [] {
    } else {
      var pre, b := ps[..|ps| - 1], ps[|ps| - 1].block;
      RecordsRise(pre);
      RecordIffAboveTop(ps, Top(Records(pre)));
      if IsRecord(ps, |ps| - 1) {
        RisingAppend(Records(pre), b);
        assert Records(ps) == Records(pre) + [b];
      } else {
        assert Records(ps) == Records(pre);
      }
    }
  }

  /** What the pipeline holds after the records rs. */
  ghost predicate Holding(ch: Chain, rs: seq<QCBlock>) {
    && ch.curBlock == (if |rs| >= 1 then rs[|rs| - 1] else ZERO_BLOCK)
    && ch.lockedBlock == (if |rs| >= 2 then rs[|rs| - 2] else ZERO_BLOCK)
    && (forall i :: 0 <= i < |rs| - 2 ==> rs[i].height in ch.committed && ch.committed[rs[i].height] == rs[i])
    && (forall h :: h in ch.committed && h >= 1 ==> exists i :: 0 <= i < |rs| - 2 && rs[i].height == h)
    && (forall h :: h in ch.committed ==> h >= 0)
  }

  lemma NextRecord(c: Config, ch: Chain, rs: seq<QCBlock>, b: QCBlock, num: int)
    requires Holding(ch, rs) && Rising(rs) && b.height > Top(rs)
    ensures Holding(ProcessQCInfo(c, false, ch, b, num), rs + [b])
  {
    var ch', rs', n := ProcessQCInfo(c, false, ch, b, num), rs + [b], |rs|;
    if n >= 2 {
      assert b.height >= 3 && b.height >= ch.lockedBlock.height + 2;
      assert ch'.committed == ch.committed[rs[n - 2].height := rs[n - 2]];
    }
    forall h | h in ch'.committed && h >= 1 ensures exists i :: 0 <= i < |rs'| - 2 && rs'[i].height == h {
      if h in ch.committed {
        var i :| 0 <= i < n - 2 && rs[i].height == h;
        assert rs'[i].height == h;
      } else {
        assert n >= 2 && rs'[n - 2].height == h;
      }
    }
  }

  lemma PipelineStep(c: Config, ch: Chain, rs: seq<QCBlock>, ps: seq<Parent>)
    requires ps != [] && Holding(ch, rs) && Rising(rs) && TopOf(ps[..|ps| - 1], Top(rs))
    ensures var last := ps[|ps| - 1];
      Holding(ProcessQCInfo(c, false, ch, last.block, last.num),
              rs + (if IsRecord(ps, |ps| - 1) then [last.block] else []))
  {
    var last := ps[|ps| - 1];
    RecordIffAboveTop(ps, Top(rs));
    if IsRecord(ps, |ps| - 1) {
      NextRecord(c, ch, rs, last.block, last.num);
    } else {
      assert rs + [] == rs;
      StaleChangesNothing(c, false, ch, last.block, last.num);
    }
  }

  /** Closed form.  Folding ProcessQCInfo at a follower over any sequence of
      certified parents, with gaps, repeats and in any order, leaves curBlock as
      the last height record, lockedBlock as the one before, and the ledger at
      heights above 0 as exactly all earlier records. */
  lemma {:induction false} PipelineClosedForm(c: Config, ch: Chain, ps: seq<Parent>)
    requires Holding(ch, [])
    ensures Holding(ProcessAll(c, false, ch, ps), Records(ps))
  {
    if ps == [] {
    } else {
      var pre := ps[..|ps| - 1];
      PipelineClosedForm(c, ch, pre);
      RecordsRise(pre);
      PipelineStep(c, ProcessAll(c, false, ch, pre), Records(pre), ps);
    }
  }

  /** The block, the lock and the ledger stay as they are at a follower exactly
      when the certified block is not above its own. */
  lemma StaleChangesNothing(c: Config, leader: bool, ch: Chain, b: QCBlock, num: int)
    requires !leader && ch.curBlock.height >= 0
    ensures var ch' := ProcessQCInfo(c, leader, ch, b, num);
      (ch'.curBlock == ch.curBlock && ch'.lockedBlock == ch.lockedBlock && ch'.committed == ch.committed)
      <==> b.height <= ch.curBlock.height
  {
  }

  // ----- order and write-once -----

  /** Committed heights lie below the lock, and the lock below the block,
      outside height 0 where only the initial block lives. */
  ghost predicate Ordered(ch: Chain) {
    && 0 <= ch.lockedBlock.height && 0 <= ch.curBlock.height
    && (ch.curBlock.height == 0 ==> ch.curBlock == ZERO_BLOCK)
    && (ch.lockedBlock.height == 0 ==> ch.lockedBlock == ZERO_BLOCK)
    && (ch.lockedBlock.height >= 1 ==> ch.lockedBlock.height < ch.curBlock.height)
    && (forall h :: h in ch.committed ==> 0 <= h)
    && (forall h :: h in ch.committed && h >= 1 ==> h < ch.lockedBlock.height)
    && (0 in ch.committed ==> ch.committed[0] == ZERO_BLOCK)
  }

  /** Nothing written is ever changed. */
  ghost predicate Extends(l: Ledger, l': Ledger) {
    forall h :: h in l ==> h in l' && l'[h] == l[h]
  }

  predicate Certified(b: QCBlock) {
    b == ZERO_BLOCK || b.height >= 1
  }

  /** ProcessQCInfo keeps the order exactly when it is not a leader that is
      handed a certified block above its own. */
  lemma ProcessKeepsOrder(c: Config, leader: bool, ch: Chain, b: QCBlock, num: int)
    requires Ordered(ch) && Certified(b)
    ensures var ch' := ProcessQCInfo(c, leader, ch, b, num);
      Ordered(ch') <==> !(leader && b.height >= 2 && 1 <= ch.curBlock.height < b.height)
  {
    var ch' := ProcessQCInfo(c, leader, ch, b, num);
    if !Stale(ch, b) && b.height >= 2 {
      assert ch'.lockedBlock == ch.curBlock;
    }
  }

  /** In an ordered state nothing written changes, leader or not. */
  lemma ProcessWritesOnce(c: Config, leader: bool, ch: Chain, b: QCBlock, num: int)
    requires Ordered(ch)
    ensures Extends(ch.committed, ProcessQCInfo(c, leader, ch, b, num).committed)
  {
  }

  /** Otherwise an entry can change.  A leader in an ordered state that is handed
      another's certified block b above its own x, twice, commits x; it adopts
      another block y of the same height in a view change, is handed b twice
      more, and commits y in its place. */
  lemma EntryOverwritten(c: Config, ch: Chain, b: QCBlock, y: QCBlock, num: int)
    requires Ordered(ch) && ch.curBlock.height >= 1 && b.height >= ch.curBlock.height + 2
    requires y.hash != NoHash && y.height == ch.curBlock.height && y != ch.curBlock
    ensures var k := ch.curBlock.height;
      var ch2 := ProcessQCInfo(c, true, ProcessQCInfo(c, true, ch, b, num), b, num);
      var ch4 := ProcessQCInfo(c, true, ProcessQCInfo(c, true, AdoptBlock(ch2, y), b, num), b, num);
      && k in ch2.committed && ch2.committed[k] == ch.curBlock
      && k in ch4.committed && ch4.committed[k] == y
  {
    var x := ch.curBlock;
    var ch1 := ProcessQCInfo(c, true, ch, b, num);
    assert ch1.lockedBlock == x && ch1.curBlock == x;
    var ch2 := ProcessQCInfo(c, true, ch1, b, num);
    assert ch2.lockedBlock == x && ch2.curBlock == x && ch2.committed == ch1.committed[x.height := x];
    var ch3 := ProcessQCInfo(c, true, AdoptBlock(ch2, y), b, num);
    assert ch3.lockedBlock == y && ch3.curBlock == y;
    assert ProcessQCInfo(c, true, ch3, b, num).committed == ch3.committed[y.height := y];
  }

  // ----- a follower that misses nothing -----

  /** The proposals 1, 2, ... of one view, each on the certificate of the one before it. */
  ghost predicate InOrder(c: Config, v: int, ms: seq<Msg>) {
    forall i :: 0 <= i < |ms| ==>
      && ms[i].Proposal? && ms[i].view == v && ms[i].num == i + 1 && ms[i].qc.height == i
      && (if i == 0 then ms[i].qc == ZERO_BLOCK else |ms[i].qc.qc| >= c.quorum && |ms[i].qc.qc| == |ms[i].qc.ids|)
  }

  function HandleProposals(c: Config, r: Replica, ms: seq<Msg>): Replica {
    if ms == [] then r
    else
      var last := ms[|ms| - 1];
      var before := HandleProposals(c, r, ms[..|ms| - 1]);
      if last.Proposal? then OnProposal(c, before, last).r else before
  }

  /** The block the i-th proposal carries, and the initial block before the first. */
  function Carried(ms: seq<Msg>, i: int): QCBlock {
    if 1 <= i <= |ms| && ms[i - 1].Proposal? then ms[i - 1].qc else ZERO_BLOCK
  }

  /** The last three numbers up to k. */
  function LastThree(k: int): set<int> {
    (if k >= 1 then {k} else {}) + (if k >= 2 then {k - 1} else {}) + (if k >= 3 then {k - 2} else {})
  }

  /** A new follower handed the proposals 1 .. k in order holds the block the last
      one carries, has locked the block of the one before and committed the block
      of the one before that, and awaits decisions on exactly the last three. */
  lemma {:induction false} FollowerInOrder(c: Config, id: int, ms: seq<Msg>)
    requires InOrder(c, 0, ms) && LeaderID(c, 0) != id
    ensures var r, k := HandleProposals(c, Fresh(c, id), ms), |ms|;
      && r == Fresh(c, id).(chain := r.chain) && r.chain.sequence == k && r.chain.awaitingCopy == LastThree(k)
      && r.chain.curBlock == Carried(ms, k) && r.chain.lockedBlock == Carried(ms, k - 1)
      && (k >= 4 ==> k - 3 in r.chain.committed && r.chain.committed[k - 3] == Carried(ms, k - 2))
  {
    if ms == [] {
    } else {
      var k := |ms|;
      var pre, m := ms[..k - 1], ms[k - 1];
      FollowerInOrder(c, id, pre);
      var r := HandleProposals(c, Fresh(c, id), pre);
      CarriedBefore(ms, k - 1);
      CarriedBefore(ms, k - 2);
      CarriedBefore(ms, k - 3);
      NextInOrder(c, r, m);
    }
  }

  lemma CarriedBefore(ms: seq<Msg>, i: int)
    requires ms != [] && i < |ms|
    ensures Carried(ms[..|ms| - 1], i) == Carried(ms, i)
  {
  }

  /** The step: proposal k at a follower that has handled 1 .. k-1. */
  lemma NextInOrder(c: Config, r: Replica, m: Msg)
    requires m.Proposal? && !r.leader && r.status == READY && m.view == r.view && m.num >= 1
    requires m.qc.height == m.num - 1 && r.chain.sequence == m.num - 1 && r.chain.awaitingCopy == LastThree(m.num - 1)
    requires if m.num == 1 then m.qc == ZERO_BLOCK else |m.qc.qc| >= c.quorum && |m.qc.qc| == |m.qc.ids|
    requires r.chain.curBlock.height == (if m.num >= 2 then m.num - 2 else 0)
    requires r.chain.lockedBlock.height == (if m.num >= 3 then m.num - 3 else 0)
    ensures var r' := OnProposal(c, r, m).r;
      && r' == r.(chain := r'.chain) && r'.chain.sequence == m.num && r'.chain.awaitingCopy == LastThree(m.num)
      && r'.chain.curBlock == (if m.num >= 2 then m.qc else r.chain.curBlock)
      && r'.chain.lockedBlock == (if m.num >= 3 then r.chain.curBlock else r.chain.lockedBlock)
      && (m.num >= 4 ==> m.num - 3 in r'.chain.committed && r'.chain.committed[m.num - 3] == r.chain.lockedBlock)
  {
  }
}
