/** Quorum sizes, the regimes that fix them, and what they guarantee. */
module Quorums {
  import opened Messages
  import opened Buffers

  datatype PersistLevel = PersistAll | PersistCritical | NoPersist

  /** Values are persisted when the configured level is no laxer than theirs. */
  function Rank(level: PersistLevel): int {
    match level
    case PersistAll => 1
    case PersistCritical => 2
    case NoPersist => 3
  }

  datatype Config = Config(
    n: nat,
    f: nat,
    quorum: nat,
    recQuorum: nat,
    level: PersistLevel,
    viewChange: bool,
    maxBatch: nat)

  function LeaderID(c: Config, view: int): int {
    if c.n == 0 then 0 else view % c.n
  }

  datatype Regime = Disk3F1 | Memory3FS1 | Memory3F2S1

  datatype ConfResult = Conf(regime: Regime) | ConfError

  /** The regime a configuration asks for, or an error when n does not fit it. */
  function SleepyConfig(n: nat, f: nat, s: nat, gat: bool, level: PersistLevel): ConfResult {
    if 3 * f >= n then ConfError
    else
      var regime :=
        if level == NoPersist then (if gat then Memory3FS1 else Memory3F2S1)
        else (if gat then Disk3F1 else Memory3F2S1);
      var fits := match regime
        case Disk3F1 => n == 3 * f + 1
        case Memory3FS1 => n == 3 * f + s + 1
        case Memory3F2S1 => n == 3 * f + 2 * s + 1;
      if fits then Conf(regime) else ConfError
  }

  /** Sizes used when no sleepy regime is configured; Go's integer division truncates. */
  function PlainSizes(num: nat): (int, int) {
    var f := if num == 0 then 0 else (num - 1) / 3;
    var q := (num + f + 1) / 2;
    (f, if (num + f + 1) % 2 > 0 then q + 1 else q)
  }

  /** Sizes of a sleepy regime: the vote quorum, and the recovery quorum where
      the regime sets one. */
  function SleepySizes(num: int, f: int, s: int, regime: Regime): (int, Option<int>) {
    match regime
    case Disk3F1 => (num - f, None)
    case Memory3FS1 => (num - f, Some(num - f - s))
    case Memory3F2S1 => (num - f - s, Some(num - f - s))
  }

  /** Any two vote quorums share more than f replicas. */
  predicate VotesIntersect(c: Config) {
    c.f <= c.n && c.n + c.f + 1 <= 2 * c.quorum
  }

  /** Any vote quorum and any recovery quorum share more than f replicas. */
  predicate RecoveryIntersects(c: Config) {
    c.n + c.f + 1 <= c.quorum + c.recQuorum
  }

  /** The replica identities 0 .. n-1. */
  function Ids(n: nat): (ids: set<int>)
    ensures forall i :: i in ids <==> 0 <= i < n
    ensures |ids| == n
  {
    if n == 0 then {} else Ids(n - 1) + {n - 1}
  }

  lemma Overlap(a: set<int>, b: set<int>, n: nat)
    requires a <= Ids(n) && b <= Ids(n)
    ensures |a * b| >= |a| + |b| - n
  {
    SubsetSize(a + b, Ids(n));
    assert |a + b| == |a| + |b| - |a * b|;
  }

  lemma {:induction false} SubsetSize(a: set<int>, b: set<int>)
    requires a <= b
    ensures |a| <= |b|
  {
    assert b == a + (b - a);
  }

  /** A set of more than f replicas holds one outside any set of at most f. */
  lemma HonestMember(a: set<int>, byz: set<int>) returns (p: int)
    requires |a| > |byz|
    ensures p in a && p !in byz
  {
    if forall q :: q in a ==> q in byz {
      SubsetSize(a, byz);
    }
    p :| p in a && p !in byz;
  }

  /** Two quorums large enough for their sizes to add up to n + f + 1 share a
      replica outside any set of at most f. */
  lemma HonestOverlap(a: set<int>, b: set<int>, byz: set<int>, n: nat, f: nat) returns (p: int)
    requires a <= Ids(n) && b <= Ids(n)
    requires |a| + |b| >= n + f + 1
    requires |byz| <= f
    ensures p in a && p in b && p !in byz
  {
    Overlap(a, b, n);
    p := HonestMember(a * b, byz);
  }

  /** Without a sleepy regime, vote quorums share f + 1 replicas, and no
      smaller size would do. */
  lemma PlainQuorumIntersects(num: nat, a: set<int>, b: set<int>)
    requires num > 0
    requires a <= Ids(num) && b <= Ids(num)
    requires |a| >= PlainSizes(num).1 && |b| >= PlainSizes(num).1
    ensures |a * b| >= PlainSizes(num).0 + 1
    ensures PlainSizes(num).1 <= num
    ensures 2 * (PlainSizes(num).1 - 1) < num + PlainSizes(num).0 + 1
  {
    Overlap(a, b, num);
  }

  /** Every accepted sleepy configuration: two vote quorums, and a vote and a
      recovery quorum where one is set, share at least f + 1 replicas. */
  lemma SleepyQuorumIntersects(n: nat, f: nat, s: nat, gat: bool, level: PersistLevel,
                               a: set<int>, b: set<int>, r: set<int>)
    requires SleepyConfig(n, f, s, gat, level).Conf?
    requires a <= Ids(n) && b <= Ids(n) && r <= Ids(n)
    requires var z := SleepySizes(n, f, s, SleepyConfig(n, f, s, gat, level).regime);
             |a| >= z.0 && |b| >= z.0 && (z.1.Some? ==> |r| >= z.1.value)
    ensures |a * b| >= f + 1
    ensures SleepySizes(n, f, s, SleepyConfig(n, f, s, gat, level).regime).1.Some? ==> |a * r| >= f + 1
  {
    Overlap(a, b, n);
    Overlap(a, r, n);
  }

  /** The quorums can be had: of every accepted configuration, the replicas that
      are not faulty make a vote quorum, where s of them may sleep unless the
      regime supposes them awake; and those awake make a recovery quorum. */
  lemma SleepyQuorumReachable(n: nat, f: nat, s: nat, gat: bool, level: PersistLevel,
                              correct: set<int>, asleep: set<int>)
    requires SleepyConfig(n, f, s, gat, level).Conf?
    requires correct <= Ids(n) && |correct| >= n - f && asleep <= correct && |asleep| <= s
    ensures var regime := SleepyConfig(n, f, s, gat, level).regime; var z := SleepySizes(n, f, s, regime);
      && |correct| >= z.0 && (regime == Memory3F2S1 ==> |correct - asleep| >= z.0)
      && (z.1.Some? ==> |correct - asleep| >= z.1.value)
      && (level == NoPersist ==> z.1.Some?)
  {
    assert correct == (correct - asleep) + asleep;
  }

  /** By their sizes alone, two vote quorums, and a vote and a recovery quorum
      where one is set, share f + 1 replicas. */
  predicate SharesEnough(n: int, f: int, s: int, regime: Regime) {
    var z := SleepySizes(n, f, s, regime);
    2 * z.0 - n >= f + 1 && (z.1.Some? ==> z.0 + z.1.value - n >= f + 1)
  }

  /** A configuration is accepted exactly at the least size at which the quorums
      of its regime share enough. */
  lemma AcceptedIsLeast(n: nat, f: nat, s: nat, gat: bool, level: PersistLevel)
    ensures var regime := if !gat then Memory3F2S1 else if level == NoPersist then Memory3FS1 else Disk3F1;
      SleepyConfig(n, f, s, gat, level) ==
        if SharesEnough(n, f, s, regime) && !SharesEnough(n - 1, f, s, regime) then Conf(regime) else ConfError
  {
  }

  /** Every accepted configuration with recovery in memory meets the two
      intersection conditions the run theorems ask for. */
  lemma MemoryRegimesIntersect(c: Config, s: nat, gat: bool)
    requires SleepyConfig(c.n, c.f, s, gat, NoPersist).Conf?
    requires (c.quorum, Some(c.recQuorum)) == SleepySizes(c.n, c.f, s, SleepyConfig(c.n, c.f, s, gat, NoPersist).regime)
    ensures VotesIntersect(c) && RecoveryIntersects(c)
  {
  }

  /** Integer division as in Go, toward zero. */
  function Quotient(a: int, b: int): int
    requires b > 0
  {
    if a < 0 then -(-a / b) else a / b
  }

  /** The sizes in force and the buffers, as package quorum keeps them. */
  class QuorumSystem {
    var n: int
    var f: int
    var quorum: int
    var recQuorum: int
    var squorum: int
    const buffer: VoteBuffer
    var bufferc: map<Digest, set<int>>
    const intbuffer: IntBuffer<SignedMsg>

    predicate Emptied()
      reads this, buffer, intbuffer
    {
      buffer.Book() == EMPTY_VOTES && bufferc == map[] && intbuffer.Book() == IntBook(map[], map[])
    }

    constructor ()
      ensures n == f == quorum == recQuorum == squorum == 0 && Emptied() && fresh(buffer) && fresh(intbuffer)
    {
      n, f, quorum, recQuorum, squorum := 0, 0, 0, 0, 0;
      buffer := new VoteBuffer();
      bufferc := map[];
      intbuffer := new IntBuffer<SignedMsg>();
    }

    method ClearCer()
      modifies this`bufferc, buffer, intbuffer
      ensures Emptied()
    {
      bufferc := map[];
      buffer.Init();
      intbuffer.Init();
    }

    method StartQuorum(num: nat)
      modifies this, buffer, intbuffer
      ensures n == num && (f, quorum) == PlainSizes(num) && squorum == f + 1 && recQuorum == old(recQuorum)
      ensures Emptied()
    {
      n := num;
      f := Quotient(n - 1, 3);
      quorum := Quotient(n + f + 1, 2);
      if (n + f + 1) % 2 > 0 {
        quorum := quorum + 1;
      }
      squorum := f + 1;
      ClearCer();
    }

    /** A regime without a recovery quorum leaves the one in force; the small
        quorum is never set. */
    method StartSleepyHotstuffQuorum(num: int, fal: int, s: int, regime: Regime)
      modifies this, buffer, intbuffer
      ensures n == num && f == fal && quorum == SleepySizes(num, fal, s, regime).0 && squorum == old(squorum)
      ensures recQuorum == match SleepySizes(num, fal, s, regime).1 case None => old(recQuorum) case Some(q) => q
      ensures Emptied()
    {
      n := num;
      f := fal;
      match regime {
        case Disk3F1 => quorum := num - fal;
        case Memory3FS1 =>
          quorum := num - fal;
          recQuorum := num - fal - s;
        case Memory3F2S1 =>
          quorum := num - fal - s;
          recQuorum := quorum;
      }
      ClearCer();
    }
  }
}
