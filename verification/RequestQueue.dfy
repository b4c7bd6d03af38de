/** The queue of client requests a proposer draws its batches from. */
module RequestQueue {
  import opened Messages
  import opened Quorums
  import opened ReplicaSpec

  class Queue {
    var q: seq<Bytes>

    constructor ()
      ensures q == []
    {
      q := [];
    }

    method Append(item: Bytes)
      modifies this
      ensures q == old(q) + [item]
    {
      q := q + [item];
    }

    method AppendBatch(items: seq<Bytes>)
      modifies this
      ensures q == old(q) + items
    {
      var i := 0;
      while i < |items|
        invariant 0 <= i <= |items|
        invariant q == old(q) + items[..i]
      {
        q := q + [items[i]];
        i := i + 1;
      }
    }

    /** Takes at most maxBatch requests from the front, and nothing is lost. */
    method GrabWithMaxLenAndClear(c: Config) returns (batch: seq<Bytes>)
      modifies this
      ensures batch + q == old(q)
      ensures |batch| == if |old(q)| < c.maxBatch then |old(q)| else c.maxBatch
      ensures (batch, q) == Grab(c, old(q))
    {
      if |q| > c.maxBatch {
        batch := q[..c.maxBatch];
        q := q[c.maxBatch..];
        return;
      }
      batch := q;
      q := [];
    }

    method IsEmpty() returns (empty: bool)
      ensures empty <==> q == []
    {
      empty := |q| == 0;
    }
  }
}
