/** Every step of a producer or of the consumer of the linked queue keeps the invariant. */
module LinkedQueueSteps {
  import opened Options
  import opened LinkedQueue

  // -------------------------------------------------------- the producers' steps

  /** The other producers, in a step of producer `t`. */
  lemma OtherProducers<T>(s: Queue<T>, s': Queue<T>, m: nat, t: nat)
    requires Inv(s) && Touches(s, s', m) && t in s.producers && s'.front == s.front
    requires forall u | u in s.producers && u != t :: s'.producers[u] == s.producers[u]
    requires m in s.place ==> s.place[m] == WithProducer(t) || !s.place[m].WithProducer?
    requires forall u | u in s.producers && u != t && s.producers[u].PLink? ::
      s.producers[u].p.node in s'.next && s'.next[s.producers[u].p.node] == s.next[s.producers[u].p.node]
    ensures forall u | u in s'.producers && u != t :: ProducerAt(s', u)
  {
    forall u | u in s'.producers && u != t ensures ProducerAt(s', u) { ProducerFrame(s, s', m, u); }
  }

  /** The producers about to link write into nodes of the chain, each into its own. */
  lemma Linkers<T>(s: Queue<T>, m: nat)
    requires Inv(s) && (m in s.place ==> !s.place[m].InChain?)
    ensures forall u | u in s.producers && s.producers[u].PLink? ::
      s.producers[u].p.node in s.next && s.producers[u].p.node != m
  {
    forall u | u in s.producers && s.producers[u].PLink?
      ensures s.producers[u].p.node in s.next && s.producers[u].p.node != m
    {
      assert ProducerAt(s, u);
      assert ChainAt(s, s.producers[u].k - 1);
    }
  }

  lemma AllChain<T>(s: Queue<T>, s': Queue<T>, m: nat)
    requires Inv(s) && Touches(s, s', m) && (m in s.place ==> !s.place[m].InChain?)
    requires s'.front == s.front && s'.order == s.order && (HeadFull(s') <==> HeadFull(s))
    requires forall u | u in s.producers && s.producers[u].PLink? :: s'.producers[u] == s.producers[u]
    ensures forall i: nat | s'.front <= i < |s'.order| :: ChainAt(s', i)
  {
    forall i: nat | s'.front <= i < |s'.order| ensures ChainAt(s', i) {
      assert ChainAt(s, i);
      ChainFrame(s, s', m, i);
    }
  }

  lemma AllFree<T>(s: Queue<T>, s': Queue<T>, m: nat)
    requires Inv(s) && Touches(s, s', m) && (m in s.place ==> !s.place[m].InFree?) && s.free <= s'.free
    ensures forall j: nat | 0 <= j < |s.free| :: FreeAt(s', j)
  {
    forall j: nat | 0 <= j < |s.free| ensures FreeAt(s', j) {
      assert FreeAt(s, j);
      FreeFrame(s, s', m, j);
    }
  }

  /** Steps in which producer `t` touches at most its own node. */
  lemma PrivateStep<T>(s: Queue<T>, s': Queue<T>, m: nat, t: nat)
    requires Inv(s) && Touches(s, s', m) && t in s.producers && !s.producers[t].PLink?
    requires s'.front == s.front && s'.order == s.order && s'.free == s.free && s'.outs == s.outs
    requires s'.head == s.head && s'.consumed == s.consumed && s'.consumer == s.consumer
    requires forall u | u in s.producers && u != t :: s'.producers[u] == s.producers[u]
    requires m in s.place ==> s.place[m] == WithProducer(t)
    requires ProducerAt(s', t)
    ensures Inv(s')
  {
    ConsumerFrame(s, s', m);
    AllChain(s, s', m);
    AllFree(s, s', m);
    Linkers(s, m);
    OtherProducers(s, s', m, t);
  }

  lemma LoadStep<T>(s: Queue<T>, t: nat, p: Producer<T>)
    requires Inv(s) && t in s.producers && !s.producers[t].PLink?
    requires ProducerAt(SetP(s, t, p), t)
    ensures Inv(SetP(s, t, p))
  {
    assert forall n | n in s.next && n != s.unused :: SameNode(s, SetP(s, t, p), n);
    PrivateStep(s, SetP(s, t, p), s.unused, t);
  }

  lemma NewTouches<T>(s: Queue<T>, t: nat, call: T, weak: bool)
    requires Inv(s) && t in s.producers && s.producers[t].PFree? && s.producers[t].top == None
    requires Safe(s, Produce(t, call, weak))
    ensures var s' := ProducerStep(s, t, call, weak);
      Touches(s, s', s.unused) && ProducerAt(s', t) && s.unused !in s.place
  {
    var s' := ProducerStep(s, t, call, weak);
    assert forall n | n in s.next && n != s.unused :: SameNode(s, s', n);
  }

  lemma NewStep<T>(s: Queue<T>, t: nat, call: T, weak: bool)
    requires Inv(s) && t in s.producers && s.producers[t].PFree? && s.producers[t].top == None
    requires Safe(s, Produce(t, call, weak))
    ensures Inv(ProducerStep(s, t, call, weak))
  {
    NewTouches(s, t, call, weak);
    PrivateStep(s, ProducerStep(s, t, call, weak), s.unused, t);
  }

  lemma InitStep<T>(s: Queue<T>, t: nat, call: T, weak: bool)
    requires Inv(s) && t in s.producers && s.producers[t].PInit?
    requires Safe(s, Produce(t, call, weak))
    ensures Inv(ProducerStep(s, t, call, weak))
  {
    var s', m := ProducerStep(s, t, call, weak), s.producers[t].x.node;
    assert ProducerAt(s, t);
    assert forall n | n in s.next && n != m :: SameNode(s, s', n);
    PrivateStep(s, s', m, t);
  }

  lemma PopTouches<T>(s: Queue<T>, t: nat, call: T, weak: bool)
    requires Inv(s) && t in s.producers && s.producers[t].PPop?
    requires Safe(s, Produce(t, call, weak)) && s.top == Some(s.producers[t].h) && !weak
    ensures var s', m := ProducerStep(s, t, call, weak), s.producers[t].h.node;
      && Touches(s, s', m) && ProducerAt(s', t)
      && |s.free| > 0 && s.free[|s.free| - 1].node == m && m in s.place && s.place[m] == InFree(|s.free| - 1)
      && s'.free == s.free[..|s.free| - 1]
  {
    var s', h, last := ProducerStep(s, t, call, weak), s.producers[t].h, |s.free| - 1;
    assert ProducerAt(s, t);
    assert FreeAt(s, last);
    assert forall n | n in s.next && n != h.node :: SameNode(s, s', n);
  }

  /** A compare-and-swap on the free list succeeds only if the node has never left it since it was read. */
  lemma PopStep<T>(s: Queue<T>, t: nat, call: T, weak: bool)
    requires Inv(s) && t in s.producers && s.producers[t].PPop?
    requires Safe(s, Produce(t, call, weak)) && s.top == Some(s.producers[t].h) && !weak
    ensures Inv(ProducerStep(s, t, call, weak))
  {
    var s', m := ProducerStep(s, t, call, weak), s.producers[t].h.node;
    PopTouches(s, t, call, weak);
    ConsumerFrame(s, s', m);
    AllChain(s, s', m);
    forall j: nat | 0 <= j < |s'.free| ensures FreeAt(s', j) {
      assert FreeAt(s, j);
      FreeFrame(s, s', m, j);
    }
    Linkers(s, m);
    OtherProducers(s, s', m, t);
  }

  lemma XchgShape<T>(s: Queue<T>, t: nat, call: T, weak: bool)
    requires Inv(s) && t in s.producers && s.producers[t].PXchg?
    requires Safe(s, Produce(t, call, weak)) && s.tail == s.producers[t].seen && !weak
    ensures var s' := ProducerStep(s, t, call, weak); Shape(s') && ProducerAt(s', t)
  {
    assert ProducerAt(s, t);
    assert ChainAt(s, |s.order| - 1);
  }

  lemma XchgTouches<T>(s: Queue<T>, t: nat, call: T, weak: bool)
    requires Inv(s) && t in s.producers && s.producers[t].PXchg?
    requires Safe(s, Produce(t, call, weak)) && s.tail == s.producers[t].seen && !weak
    ensures var s', m := ProducerStep(s, t, call, weak), s.producers[t].x.node;
      && Touches(s, s', m) && m in s.place && s.place[m] == WithProducer(t) && ChainAt(s', |s.order|)
  {
    var s', x := ProducerStep(s, t, call, weak), s.producers[t].x;
    XchgShape(s, t, call, weak);
    assert ProducerAt(s, t);
    assert forall m | m in s.next && m != x.node :: SameNode(s, s', m);
  }

  lemma XchgChain<T>(s: Queue<T>, t: nat, call: T, weak: bool, i: nat)
    requires Inv(s) && t in s.producers && s.producers[t].PXchg?
    requires Safe(s, Produce(t, call, weak)) && s.tail == s.producers[t].seen && !weak
    requires s.front <= i < |s.order|
    ensures var s' := ProducerStep(s, t, call, weak); Shape(s') && ChainAt(s', i)
  {
    var s', m := ProducerStep(s, t, call, weak), s.producers[t].x.node;
    XchgTouches(s, t, call, weak);
    assert ChainAt(s, i);
    if i < |s.order| - 1 { ChainFrame(s, s', m, i); } else { assert SameNode(s, s', s.order[i].node); }
  }

  lemma XchgStep<T>(s: Queue<T>, t: nat, call: T, weak: bool)
    requires Inv(s) && t in s.producers && s.producers[t].PXchg?
    requires Safe(s, Produce(t, call, weak)) && s.tail == s.producers[t].seen && !weak
    ensures Inv(ProducerStep(s, t, call, weak))
  {
    var s', m := ProducerStep(s, t, call, weak), s.producers[t].x.node;
    XchgShape(s, t, call, weak);
    XchgTouches(s, t, call, weak);
    ConsumerFrame(s, s', m);
    forall i: nat | s'.front <= i < |s'.order| ensures ChainAt(s', i) {
      if i < |s.order| { XchgChain(s, t, call, weak, i); }
    }
    AllFree(s, s', m);
    Linkers(s, m);
    OtherProducers(s, s', m, t);
  }

  lemma LinkTouches<T>(s: Queue<T>, t: nat, call: T, weak: bool)
    requires Inv(s) && t in s.producers && s.producers[t].PLink?
    requires Safe(s, Produce(t, call, weak))
    ensures var s', m, k := ProducerStep(s, t, call, weak), s.producers[t].p.node, s.producers[t].k;
      && Touches(s, s', m) && ProducerAt(s', t) && s.front < k < |s.order| && s.order[k - 1].node == m
      && m in s.place && s.place[m] == InChain(k - 1) && s.next[m] == None && ChainAt(s', k - 1)
  {
    var s', m, k := ProducerStep(s, t, call, weak), s.producers[t].p.node, s.producers[t].k;
    assert ProducerAt(s, t);
    assert ChainAt(s, k - 1);
    assert forall n | n in s.next && n != m :: SameNode(s, s', n);
  }

  /** Different producers link behind different nodes. */
  lemma OtherLinkers<T>(s: Queue<T>, t: nat)
    requires Inv(s) && t in s.producers && s.producers[t].PLink?
    ensures forall u | u in s.producers && u != t && s.producers[u].PLink? ::
      s.producers[u].p.node in s.next && s.producers[u].p.node != s.producers[t].p.node
  {
    assert ProducerAt(s, t);
    assert ChainAt(s, s.producers[t].k - 1);
    forall u | u in s.producers && u != t && s.producers[u].PLink?
      ensures s.producers[u].p.node in s.next && s.producers[u].p.node != s.producers[t].p.node
    {
      assert ProducerAt(s, u);
      assert ChainAt(s, s.producers[u].k - 1);
    }
  }

  lemma LinkChain<T>(s: Queue<T>, t: nat, call: T, weak: bool, i: nat)
    requires Inv(s) && t in s.producers && s.producers[t].PLink?
    requires Safe(s, Produce(t, call, weak)) && s.front <= i < |s.order| && i != s.producers[t].k - 1
    ensures var s' := ProducerStep(s, t, call, weak); Shape(s') && ChainAt(s', i)
  {
    LinkTouches(s, t, call, weak);
    assert ChainAt(s, i);
    ChainFrame(s, ProducerStep(s, t, call, weak), s.producers[t].p.node, i);
  }

  lemma LinkStep<T>(s: Queue<T>, t: nat, call: T, weak: bool)
    requires Inv(s) && t in s.producers && s.producers[t].PLink?
    requires Safe(s, Produce(t, call, weak))
    ensures Inv(ProducerStep(s, t, call, weak))
  {
    var s', m, k := ProducerStep(s, t, call, weak), s.producers[t].p.node, s.producers[t].k;
    LinkTouches(s, t, call, weak);
    ConsumerFrame(s, s', m);
    forall i: nat | s'.front <= i < |s'.order| ensures ChainAt(s', i) {
      if i != k - 1 { LinkChain(s, t, call, weak, i); }
    }
    AllFree(s, s', m);
    OtherLinkers(s, t);
    OtherProducers(s, s', m, t);
  }

  /** A producer that is getting itself a node. */
  lemma AllocatingKeeps<T>(s: Queue<T>, t: nat, v: T, weak: bool)
    requires Inv(s) && t in s.producers && Safe(s, Produce(t, v, weak))
    requires s.producers[t].PAlloc? || s.producers[t].PFree? || s.producers[t].PPop?
    ensures Inv(ProducerStep(s, t, v, weak))
  {
    assert ProducerAt(s, t);
    match s.producers[t]
    case PAlloc(w) => TopSeen(s); LoadStep(s, t, PFree(w, s.top));
    case PFree(w, None) => NewStep(s, t, v, weak);
    case PFree(w, Some(h)) => LoadStep(s, t, PPop(w, h, s.next[h.node]));
    case PPop(w, h, _) =>
      if s.top == Some(h) && !weak { PopStep(s, t, v, weak); } else { TopSeen(s); LoadStep(s, t, PFree(w, s.top)); }
  }

  lemma ProducerKeeps<T>(s: Queue<T>, t: nat, v: T, weak: bool)
    requires Inv(s) && t in s.producers && Safe(s, Produce(t, v, weak))
    ensures Inv(ProducerStep(s, t, v, weak))
  {
    assert ProducerAt(s, t);
    match s.producers[t]
    case PIdle => LoadStep(s, t, PAlloc(v));
    case PInit(_, _) => InitStep(s, t, v, weak);
    case PTail(w, x) => LoadStep(s, t, PXchg(w, x, s.tail));
    case PXchg(w, x, seen) =>
      if s.tail == seen && !weak { XchgStep(s, t, v, weak); } else { LoadStep(s, t, PXchg(w, x, s.tail)); }
    case PLink(_, _, _) => LinkStep(s, t, v, weak);
    case _ => AllocatingKeeps(s, t, v, weak);
  }

  lemma TopSeen<T>(s: Queue<T>)
    requires Inv(s)
    ensures s.top.Some? ==> Seen(s, s.top.value)
  {
    if s.top.Some? { assert FreeAt(s, |s.free| - 1); }
  }

  // -------------------------------------------------------- the consumer's steps

  /** Steps of the consumer that change nothing but its phase. */
  lemma ConsumerLoad<T>(s: Queue<T>, c: Consumer)
    requires Inv(s) && c.COwn? == s.consumer.COwn? && c.CGrab? == s.consumer.CGrab?
    requires ConsumerAt(s.(consumer := c))
    ensures Inv(s.(consumer := c))
  {
    var s' := s.(consumer := c);
    assert forall n | n in s.next && n != s.unused :: SameNode(s, s', n);
    AllChain(s, s', s.unused);
    AllFree(s, s', s.unused);
    AllProducers(s, s', s.unused);
  }

  lemma AllProducers<T>(s: Queue<T>, s': Queue<T>, m: nat)
    requires Inv(s) && Touches(s, s', m) && s'.producers == s.producers
    requires m in s.place ==> !s.place[m].WithProducer? && (s'.next[m] == s.next[m] || !s.place[m].InChain?)
    requires s'.front != s.front ==>
      s'.front == s.front + 1 && m == s.order[s.front].node && m in s.next && s.next[m] != None
    ensures forall u | u in s'.producers :: ProducerAt(s', u)
  {
    forall u | u in s'.producers ensures ProducerAt(s', u) {
      ProducerStays(s, s', m, u);
    }
  }

  lemma ProducerStays<T>(s: Queue<T>, s': Queue<T>, m: nat, u: nat)
    requires Inv(s) && Touches(s, s', m) && s'.producers == s.producers && u in s.producers
    requires m in s.place ==> !s.place[m].WithProducer? && (s'.next[m] == s.next[m] || !s.place[m].InChain?)
    requires s'.front != s.front ==>
      s'.front == s.front + 1 && m == s.order[s.front].node && m in s.next && s.next[m] != None
    ensures ProducerAt(s', u)
  {
    assert ChainAt(s, s.front);
    assert ProducerAt(s, u);
    if s.producers[u].PLink? {
      assert ChainAt(s, s.producers[u].k - 1);
      if s.producers[u].p.node != m { assert SameNode(s, s', s.producers[u].p.node); }
    }
    ProducerFrame(s, s', m, u);
  }

  lemma NextRead<T>(s: Queue<T>)
    requires Inv(s) && s.consumer.CNext? && Safe(s, Consume(false))
    ensures Inv(ConsumerStep(s, false))
  {
    var s' := ConsumerStep(s, false);
    assert ChainAt(s, s.front);
    ConsumerLoad(s, s'.consumer);
  }

  lemma TakeStep<T>(s: Queue<T>)
    requires Inv(s) && s.consumer.CTake? && Safe(s, Consume(false))
    ensures Inv(ConsumerStep(s, false))
  {
    var s' := ConsumerStep(s, false);
    assert forall n | n in s.next && n != s.unused :: SameNode(s, s', n);
    AllChain(s, s', s.unused);
    AllFree(s, s', s.unused);
    AllProducers(s, s', s.unused);
  }

  lemma OwnTouches<T>(s: Queue<T>)
    requires Inv(s) && s.consumer.COwn? && Safe(s, Consume(false))
    ensures var s', m := ConsumerStep(s, false), s.head.node;
      && Touches(s, s', m) && ConsumerAt(s') && Delivered(s') && ChainAt(s', s.front)
      && m in s.place && s.place[m] == InChain(s.front)
  {
    var s', m := ConsumerStep(s, false), s.head.node;
    assert ChainAt(s, s.front);
    assert forall n | n in s.next && n != m :: SameNode(s, s', n);
    assert s.sent[..s.front] == s.sent[..s.front - 1] + [s.sent[s.front - 1]];
  }

  lemma OwnStep<T>(s: Queue<T>)
    requires Inv(s) && s.consumer.COwn? && Safe(s, Consume(false))
    ensures Inv(ConsumerStep(s, false))
  {
    var s', m := ConsumerStep(s, false), s.head.node;
    OwnTouches(s);
    forall i: nat | s'.front <= i < |s'.order| ensures ChainAt(s', i) {
      assert ChainAt(s, i);
      if i != s.front { ChainFrame(s, s', m, i); }
    }
    AllFree(s, s', m);
    AllProducers(s, s', m);
  }

  lemma MoveTouches<T>(s: Queue<T>)
    requires Inv(s) && s.consumer.CMove? && Safe(s, Consume(false))
    ensures var s', m := ConsumerStep(s, false), s.head.node;
      && Touches(s, s', m) && s'.front == s.front + 1
      && m in s.place && s.place[m] == InChain(s.front) && s.next[m] != None
  {
    var s', m := ConsumerStep(s, false), s.head.node;
    assert ChainAt(s, s.front);
    assert forall n | n in s.next && n != m :: SameNode(s, s', n);
  }

  /** The consumer's own part of it: the next item is the one to hand out. */
  lemma MoveDelivers<T>(s: Queue<T>)
    requires Inv(s) && s.consumer.CMove? && Safe(s, Consume(false))
    ensures ConsumerAt(ConsumerStep(s, false)) && Delivered(ConsumerStep(s, false))
  {
    assert ChainAt(s, s.front);
  }

  lemma MoveStep<T>(s: Queue<T>)
    requires Inv(s) && s.consumer.CMove? && Safe(s, Consume(false))
    ensures Inv(ConsumerStep(s, false))
  {
    var s', m := ConsumerStep(s, false), s.head.node;
    MoveTouches(s);
    MoveDelivers(s);
    forall i: nat | s'.front <= i < |s'.order| ensures ChainAt(s', i) {
      assert ChainAt(s, i);
      ChainFrame(s, s', m, i);
    }
    AllFree(s, s', m);
    AllProducers(s, s', m);
  }

  /** Steps in which the consumer touches only the node it has unlinked. */
  lemma UnlinkedStep<T>(s: Queue<T>, s': Queue<T>, m: nat)
    requires Inv(s) && Touches(s, s', m) && m in s.place && s.place[m] == WithConsumer
    requires s'.front == s.front && s'.order == s.order && s'.producers == s.producers
    requires (HeadFull(s') <==> HeadFull(s))
    requires s.free <= s'.free && (|s'.free| > |s.free| ==> |s'.free| == |s.free| + 1 && FreeAt(s', |s.free|))
    requires ConsumerAt(s') && Delivered(s')
    ensures Inv(s')
  {
    AllChain(s, s', m);
    AllFree(s, s', m);
    AllProducers(s, s', m);
  }

  lemma GrabStep<T>(s: Queue<T>)
    requires Inv(s) && s.consumer.CGrab? && Safe(s, Consume(false))
    ensures Inv(ConsumerStep(s, false))
  {
    var s', m := ConsumerStep(s, false), s.consumer.h.node;
    assert forall n | n in s.next && n != m :: SameNode(s, s', n);
    assert s.sent[..s.front - 1] == s.sent[..s.front - 2] + [s.sent[s.front - 2]];
    UnlinkedStep(s, s', m);
  }

  lemma StoreShape<T>(s: Queue<T>)
    requires Inv(s) && s.consumer.CStore? && Safe(s, Consume(false))
    ensures var s', m := ConsumerStep(s, false), s.consumer.h.node;
      Shape(s') && ConsumerAt(s') && m in s.place && s.place[m] == WithConsumer
  {
  }

  lemma StoreTouches<T>(s: Queue<T>)
    requires Inv(s) && s.consumer.CStore? && Safe(s, Consume(false))
    ensures Touches(s, ConsumerStep(s, false), s.consumer.h.node)
  {
    StoreShape(s);
    var s', m := ConsumerStep(s, false), s.consumer.h.node;
    assert forall n | n in s.next && n != m :: SameNode(s, s', n);
  }

  lemma StoreStep<T>(s: Queue<T>)
    requires Inv(s) && s.consumer.CStore? && Safe(s, Consume(false))
    ensures Inv(ConsumerStep(s, false))
  {
    StoreShape(s);
    StoreTouches(s);
    UnlinkedStep(s, ConsumerStep(s, false), s.consumer.h.node);
  }

  lemma PushShape<T>(s: Queue<T>)
    requires Inv(s) && s.consumer.CPush? && Safe(s, Consume(false)) && s.top == s.consumer.top
    ensures var s', m := ConsumerStep(s, false), s.consumer.h.node;
      Shape(s') && m in s.place && s.place[m] == WithConsumer && s'.free == s.free + [s.consumer.h]
  {
  }

  lemma PushTouches<T>(s: Queue<T>)
    requires Inv(s) && s.consumer.CPush? && Safe(s, Consume(false)) && s.top == s.consumer.top
    ensures var s', m := ConsumerStep(s, false), s.consumer.h.node;
      && Touches(s, s', m) && m in s.place && s.place[m] == WithConsumer
      && s'.free == s.free + [s.consumer.h] && FreeAt(s', |s.free|)
  {
    var s', m := ConsumerStep(s, false), s.consumer.h.node;
    PushShape(s);
    assert forall n | n in s.next && n != m :: SameNode(s, s', n);
  }

  lemma PushStep<T>(s: Queue<T>)
    requires Inv(s) && s.consumer.CPush? && Safe(s, Consume(false)) && s.top == s.consumer.top
    ensures Inv(ConsumerStep(s, false))
  {
    PushTouches(s);
    UnlinkedStep(s, ConsumerStep(s, false), s.consumer.h.node);
  }

  /** The consumer puts the unlinked node on the free list. */
  lemma FreeingKeeps<T>(s: Queue<T>, weak: bool)
    requires Inv(s) && Safe(s, Consume(weak)) && (s.consumer.CFree? || s.consumer.CStore? || s.consumer.CPush?)
    ensures Inv(ConsumerStep(s, weak))
  {
    var c := s.consumer;
    if c.CFree? {
      ConsumerLoad(s, CStore(c.h, s.top, c.found));
    } else if c.CStore? {
      StoreStep(s);
    } else if s.top == c.top && !weak {
      PushStep(s);
    } else {
      ConsumerLoad(s, CStore(c.h, s.top, c.found));
    }
  }

  /** The consumer looks at the head and takes what is there. */
  lemma TakingKeeps<T>(s: Queue<T>, weak: bool)
    requires Inv(s) && Safe(s, Consume(weak))
    requires (s.consumer.CTake? || s.consumer.COwn? || s.consumer.CMove? || s.consumer.CGrab?)
    ensures Inv(ConsumerStep(s, weak))
  {
    if s.consumer.CTake? {
      TakeStep(s);
    } else if s.consumer.COwn? {
      OwnStep(s);
    } else if s.consumer.CGrab? {
      GrabStep(s);
    } else if weak {
      ConsumerLoad(s, CHead);
    } else {
      MoveStep(s);
    }
  }

  lemma ConsumerKeeps<T>(s: Queue<T>, weak: bool)
    requires Inv(s) && Safe(s, Consume(weak))
    ensures Inv(ConsumerStep(s, weak))
  {
    if s.consumer.CIdle? {
      ConsumerLoad(s, CHead);
    } else if s.consumer.CHead? {
      ConsumerLoad(s, CNext(s.head, s.consumed));
    } else if s.consumer.CNext? {
      NextRead(s);
    } else if s.consumer.CFree? || s.consumer.CStore? || s.consumer.CPush? {
      FreeingKeeps(s, weak);
    } else {
      TakingKeeps(s, weak);
    }
  }
}
