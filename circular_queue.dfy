/** A queue that puts every polled element back at its end (CircularQueue.java). */
module CircularQueues {
  import opened Outcomes

  /** The contents after one `poll`: on an empty queue, `poll` yields null and `add(null)` stores it. */
  function Rotated<E>(q: seq<Option<E>>): (r: seq<Option<E>>)
    ensures |q| > 0 ==> |r| == |q| && r[|r| - 1] == q[0] && forall k :: 0 < k < |q| ==> r[k - 1] == q[k]
    ensures q == [] ==> r == [None]
  {
    if q == [] then [None] else q[1..] + [q[0]]
  }

  /** The contents after `k` polls. */
  function RotatedTimes<E>(q: seq<Option<E>>, k: nat): seq<Option<E>>
  {
    if k == 0 then q else Rotated(RotatedTimes(q, k - 1))
  }

  /** Polling a non-empty queue `k <= |q|` times moves its first `k` elements to the back, in order. */
  lemma {:induction false} RotatedTimesMovesPrefix<E>(q: seq<Option<E>>, k: nat)
    requires 0 < |q| && k <= |q|
    ensures RotatedTimes(q, k) == q[k..] + q[..k]
  {
    if k == 0 {
      assert q[0..] + q[..0] == q;
    } else {
      RotatedTimesMovesPrefix(q, k - 1);
      var p := RotatedTimes(q, k - 1);
      assert p == q[k - 1..] + q[..k - 1];
      assert p[0] == q[k - 1];
      assert p[1..] == q[k..] + q[..k - 1];
      assert q[..k - 1] + [q[k - 1]] == q[..k];
    }
  }

  /** Polling a queue of length `k` exactly `k` times restores the original order. */
  lemma FullRotationRestores<E>(q: seq<Option<E>>)
    ensures RotatedTimes(q, |q|) == q
  {
    if q != [] {
      RotatedTimesMovesPrefix(q, |q|);
      assert q[|q|..] + q[..|q|] == q;
    }
  }

  class CircularQueue<E> {
    /** The underlying `LinkedList`, whose elements may be null. */
    var queue: seq<Option<E>>

    constructor ()
      ensures queue == []
    {
      queue := [];
    }

    /** Removes the head, appends it again and returns it; on an empty queue the head is null. */
    method Poll() returns (e: Option<E>)
      modifies this
      ensures old(queue) != [] ==> e == old(queue)[0]
      ensures old(queue) == [] ==> e == None
      ensures queue == Rotated(old(queue))
    {
      if queue == [] {
        e := None;
      } else {
        e := queue[0];
        queue := queue[1..];
      }
      Add(e);
    }

    /** Appends at the end; the elements already there do not change. */
    method Add(e: Option<E>)
      modifies this
      ensures queue == old(queue) + [e]
    {
      queue := queue + [e];
    }
  }
}
