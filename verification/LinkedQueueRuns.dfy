/** Whole runs of the linked queue: every interleaving of any number of producers and one consumer. */
module LinkedQueueRuns {
  import opened Options
  import opened LinkedQueue
  import opened LinkedQueueSteps

  /** A new queue: one blank node, its item counted as consumed; these threads are the producers. */
  ghost function Start<T>(threads: set<nat>): Queue<T> {
    var x := Idx(1, 0);
    Queue(x, true, x, None, 2, map[1 := None], map[], map t | t in threads :: PIdle, CIdle,
          [x], [0], [], 0, [], map[1 := 0], map[1 := InChain(0)], [])
  }

  lemma StartInv<T>(threads: set<nat>)
    ensures Inv(Start<T>(threads))
  {
    var s := Start<T>(threads);
    assert Shape(s) && ChainAt(s, 0);
  }

  /** The choice names a thread that exists. */
  predicate Fits<T>(s: Queue<T>, c: Choice<T>) {
    c.Produce? ==> c.t in s.producers
  }

  lemma NextKeeps<T>(s: Queue<T>, c: Choice<T>)
    requires Inv(s) && Fits(s, c)
    ensures Safe(s, c) && Inv(Next(s, c))
  {
    InvIsSafe(s, c);
    if c.Produce? { ProducerKeeps(s, c.t, c.v, c.weak); } else { ConsumerKeeps(s, c.weak); }
  }

  /** The queue after a run; choices of threads that do not exist are skipped. */
  ghost function After<T>(s: Queue<T>, cs: seq<Choice<T>>): (s': Queue<T>)
    requires Inv(s)
    ensures Inv(s')
  {
    if cs == [] then s
    else
      var t, c := After(s, cs[..|cs| - 1]), cs[|cs| - 1];
      if Fits(t, c) then NextKeeps(t, c); Next(t, c) else t
  }

  ghost function Run<T>(threads: set<nat>, cs: seq<Choice<T>>): (s: Queue<T>)
    ensures Inv(s)
  {
    StartInv<T>(threads);
    After(Start(threads), cs)
  }

  /**
    In every interleaving of producers and one consumer the items come out once each and in the
    order in which their nodes were exchanged into `tail`, whatever the gap between that and the
    link; and no step touches a node or an item that is not there, or constructs an item over
    another one.
  */
  lemma QueueSafety<T>(threads: set<nat>, cs: seq<Choice<T>>)
    ensures var s := Run(threads, cs);
      && s.outs <= s.sent && |s.sent| + 1 == |s.order|
      && forall c | Fits(s, c) :: Safe(s, c)
  {
    var s := Run(threads, cs);
    forall c | Fits(s, c)
      ensures Safe(s, c)
    {
      InvIsSafe(s, c);
    }
  }

  /** The thread that exchanged node `k` into `tail` is about to link it behind `head`. */
  ghost predicate Unlinked<T>(s: Queue<T>, k: nat) {
    && k < |s.order| && k < |s.owner| && s.owner[k] in s.producers
    && s.producers[s.owner[k]] == PLink(s.order[k], s.head, k)
  }

  /** The next step of the consumer answers false. */
  predicate Refuses<T>(s: Queue<T>) {
    s.consumer.CNext? && Safe(s, Consume(false)) && Next(s, Consume(false)).consumer == CIdle
  }

  lemma RefusalAt<T>(s: Queue<T>)
    requires Inv(s) && Refuses(s)
    ensures s.outs == s.sent || Unlinked(s, |s.outs| + 1)
  {
    assert ChainAt(s, s.front);
  }

  lemma RefusalWhenEmpty<T>(s: Queue<T>)
    requires Inv(s) && s.consumer.CNext? && s.outs == s.sent
    ensures Refuses(s)
  {
    InvIsSafe(s, Consume(false));
    assert ChainAt(s, s.front);
  }

  lemma RefusalWhenUnlinked<T>(s: Queue<T>)
    requires Inv(s) && s.consumer.CNext? && Unlinked(s, |s.outs| + 1)
    ensures Refuses(s)
  {
    InvIsSafe(s, Consume(false));
    assert ProducerAt(s, s.owner[|s.outs| + 1]);
  }

  /**
    At its test of `next`, `try_dequeue` answers false exactly if the queue is empty, or if everything
    in front of `head` has been taken and the thread that appended the next node has not linked it yet.
  */
  lemma RefusalMeansEmptyOrUnlinked<T>(threads: set<nat>, cs: seq<Choice<T>>)
    ensures var s := Run(threads, cs);
      && (Refuses(s) ==> s.consumer.CNext?)
      && (s.consumer.CNext? ==> (Refuses(s) <==> s.outs == s.sent || Unlinked(s, |s.outs| + 1)))
  {
    var s := Run(threads, cs);
    if Refuses(s) {
      RefusalAt(s);
    } else if s.consumer.CNext? && s.outs == s.sent {
      RefusalWhenEmpty(s);
    } else if s.consumer.CNext? && Unlinked(s, |s.outs| + 1) {
      RefusalWhenUnlinked(s);
    }
  }

  /** The exchange that takes a node off the free list succeeds if it is tried now. */
  predicate Takes<T>(s: Queue<T>, t: nat) {
    t in s.producers && s.producers[t].PPop? && s.top == Some(s.producers[t].h)
  }

  /**
    The exchange that takes a node off the free list sees only the word at the top. When it
    succeeds, the link read earlier is still the node's link: nothing was taken off and put back
    in between, or the version would differ.
  */
  lemma NoStaleLink<T>(threads: set<nat>, cs: seq<Choice<T>>, t: nat)
    ensures var s := Run(threads, cs);
      Takes(s, t) ==>
        && |s.free| > 0 && s.producers[t].h == s.free[|s.free| - 1]
        && s.producers[t].below == if |s.free| == 1 then None else Some(s.free[|s.free| - 2])
  {
    var s := Run(threads, cs);
    if Takes(s, t) {
      assert ProducerAt(s, t);
      assert FreeAt(s, |s.free| - 1);
    }
  }

  /** The node `k` links behind `x`. */
  ghost function Hop<T>(s: Queue<T>, x: Idx, k: nat): Option<Idx> {
    if k == 0 then Some(x)
    else
      match Hop(s, x, k - 1)
      case None => None
      case Some(y) => if y.node in s.next then s.next[y.node] else None
  }

  lemma {:induction false} HopsInChain<T>(s: Queue<T>, k: nat)
    requires Inv(s)
    ensures Hop(s, s.head, k).Some? ==> s.front + k < |s.order| && Hop(s, s.head, k) == Some(s.order[s.front + k])
  {
    if k > 0 {
      HopsInChain(s, k - 1);
      if Hop(s, s.head, k - 1).Some? { assert ChainAt(s, s.front + k - 1); }
    }
  }

  lemma {:induction false} HopsInFree<T>(s: Queue<T>, k: nat)
    requires Inv(s) && s.top.Some?
    ensures Hop(s, s.top.value, k).Some? <==> k < |s.free|
    ensures k < |s.free| ==> Hop(s, s.top.value, k) == Some(s.free[|s.free| - 1 - k])
  {
    if k > 0 {
      HopsInFree(s, k - 1);
      if k <= |s.free| { assert FreeAt(s, |s.free| - k); }
    }
  }

  /** Following the links from `head` never meets a node that the links from the free list's top meet. */
  lemma FreeNodesUnreachable<T>(threads: set<nat>, cs: seq<Choice<T>>, k: nat, l: nat)
    ensures var s := Run(threads, cs);
      s.top.Some? && Hop(s, s.head, k).Some? && Hop(s, s.top.value, l).Some? ==>
        Hop(s, s.head, k).value.node != Hop(s, s.top.value, l).value.node
  {
    var s := Run(threads, cs);
    if s.top.Some? {
      HopsInChain(s, k);
      HopsInFree(s, l);
      if Hop(s, s.head, k).Some? && Hop(s, s.top.value, l).Some? {
        assert ChainAt(s, s.front + k);
        assert FreeAt(s, |s.free| - 1 - l);
      }
    }
  }
}
