/**
  The linked queue of SimpleLockFreeQueue.h: any number of producers and one consumer that take one
  step at a time. A step is one access to memory that several threads can reach; constructing,
  moving out and destroying an item is a step of its own. Versions and node numbers are unbounded;
  module `Words` says how the source packs them.
*/
module LinkedQueue {
  import opened Options

  /** What the source packs into a word: node number and version. The word 0 is `None`. */
  datatype Idx = Idx(node: nat, ver: nat)

  /** Where a producer is in `enqueue`; `k` only observes. */
  datatype Producer<T> =
    | PIdle
    | PAlloc(v: T)
    | PFree(v: T, top: Option<Idx>)
    | PPop(v: T, h: Idx, below: Option<Idx>)
    | PInit(v: T, x: Idx)
    | PTail(v: T, x: Idx)
    | PXchg(v: T, x: Idx, seen: Idx)
    | PLink(x: Idx, p: Idx, k: nat)

  /** Where the consumer is in `try_dequeue`. */
  datatype Consumer =
    | CIdle
    | CHead
    | CNext(h: Idx, consumed: bool)
    | CTake(h: Idx)
    | COwn(h: Idx)
    | CMove(h: Idx, consumed: bool, n: Idx)
    | CGrab(h: Idx)
    | CFree(h: Idx, found: bool)
    | CStore(h: Idx, top: Option<Idx>, found: bool)
    | CPush(h: Idx, top: Option<Idx>, found: bool)

  /** The one place a node is in. */
  datatype Place = InChain(i: nat) | InFree(j: nat) | WithProducer(t: nat) | WithConsumer

  /**
    Shared words, memory and threads. A node has an item exactly while one is constructed in it.
    Observers: `order` are the nodes in the order in which they were exchanged into `tail`, `owner`
    the threads that did it, `sent` their items (the first node has none); `front` is the position
    of `head` in `order`; `free` is the free list from the bottom up; `ver` and `place` belong to
    the nodes; `outs` is what was dequeued.
  */
  datatype Queue<T> = Queue(
    head: Idx, consumed: bool, tail: Idx, top: Option<Idx>, unused: nat,
    next: map<nat, Option<Idx>>, item: map<nat, T>,
    producers: map<nat, Producer<T>>, consumer: Consumer,
    order: seq<Idx>, owner: seq<nat>, sent: seq<T>, front: nat, free: seq<Idx>,
    ver: map<nat, nat>, place: map<nat, Place>, outs: seq<T>)

  /** The scheduler picks a thread; `v` is what an idle producer enqueues next, `weak` makes a weak exchange fail. */
  datatype Choice<T> = Produce(t: nat, v: T, weak: bool) | Consume(weak: bool)

  // ------------------------------------------------------------------ steps

  /** Every node and item that a step touches is there, and an item is constructed only where there is none. */
  predicate Safe<T>(s: Queue<T>, c: Choice<T>) {
    match c
    case Produce(t, _, _) =>
      t in s.producers
      && (match s.producers[t]
          case PFree(_, top) => if top.Some? then top.value.node in s.next
            else s.unused !in s.next && s.unused !in s.item
          case PInit(_, x) => x.node in s.next && x.node !in s.item
          case PLink(_, p, _) => p.node in s.next
          case _ => true)
    case Consume(_) =>
      match s.consumer
      case CNext(h, _) => h.node in s.next
      case COwn(h) => h.node in s.item
      case CGrab(h) => h.node in s.item
      case CStore(h, _, _) => h.node in s.next
      case _ => true
  }

  function SetP<T>(s: Queue<T>, t: nat, p: Producer<T>): Queue<T> {
    s.(producers := s.producers[t := p])
  }

  function Bump(x: Idx): Idx {
    x.(ver := x.ver + 1)
  }

  function Next<T>(s: Queue<T>, c: Choice<T>): Queue<T>
    requires Safe(s, c)
  {
    match c
    case Produce(t, v, weak) => ProducerStep(s, t, v, weak)
    case Consume(weak) => ConsumerStep(s, weak)
  }

  function ProducerStep<T>(s: Queue<T>, t: nat, call: T, weak: bool): Queue<T>
    requires Safe(s, Produce(t, call, weak))
  {
    match s.producers[t]
    case PIdle => SetP(s, t, PAlloc(call))
    case PAlloc(v) => SetP(s, t, PFree(v, s.top))
    case PFree(v, None) =>
      var x := Idx(s.unused, 0);
      SetP(s, t, PTail(v, x)).(
        unused := s.unused + 1, next := s.next[x.node := None], item := s.item[x.node := v],
        ver := s.ver[x.node := 0], place := s.place[x.node := WithProducer(t)])
    case PFree(v, Some(h)) => SetP(s, t, PPop(v, h, s.next[h.node]))
    case PPop(v, h, below) =>
      if s.top == Some(h) && !weak then
        SetP(s, t, PInit(v, Bump(h))).(
          top := below, free := if s.free == [] then [] else s.free[..|s.free| - 1],
          ver := s.ver[h.node := h.ver + 1], place := s.place[h.node := WithProducer(t)])
      else SetP(s, t, PFree(v, s.top))
    case PInit(v, x) =>
      SetP(s, t, PTail(v, x)).(next := s.next[x.node := None], item := s.item[x.node := v])
    case PTail(v, x) => SetP(s, t, PXchg(v, x, s.tail))
    case PXchg(v, x, seen) =>
      if s.tail == seen && !weak then
        SetP(s, t, PLink(x, seen, |s.order|)).(
          tail := x, order := s.order + [x], owner := s.owner + [t], sent := s.sent + [v],
          place := s.place[x.node := InChain(|s.order|)])
      else SetP(s, t, PXchg(v, x, s.tail))
    case PLink(x, p, _) => SetP(s, t, PIdle).(next := s.next[p.node := Some(x)])
  }

  function ConsumerStep<T>(s: Queue<T>, weak: bool): Queue<T>
    requires Safe(s, Consume(weak))
  {
    match s.consumer
    case CIdle => s.(consumer := CHead)
    case CHead => s.(consumer := CNext(s.head, s.consumed))
    case CNext(h, consumed) =>
      s.(consumer := match s.next[h.node]
                     case None => if consumed then CIdle else CTake(h)
                     case Some(n) => CMove(h, consumed, n))
    case CTake(h) =>
      if s.head == h && !s.consumed then s.(consumed := true, consumer := COwn(h)) else s.(consumer := CHead)
    case COwn(h) => s.(outs := s.outs + [s.item[h.node]], item := s.item - {h.node}, consumer := CIdle)
    case CMove(h, consumed, n) =>
      if s.head == h && s.consumed == consumed && !weak then
        s.(head := n, consumed := false, front := s.front + 1, place := s.place[h.node := WithConsumer],
           consumer := if consumed then CFree(h, false) else CGrab(h))
      else s.(consumer := CHead)
    case CGrab(h) => s.(outs := s.outs + [s.item[h.node]], item := s.item - {h.node}, consumer := CFree(h, true))
    case CFree(h, found) => s.(consumer := CStore(h, s.top, found))
    case CStore(h, top, found) => s.(next := s.next[h.node := top], consumer := CPush(h, top, found))
    case CPush(h, top, found) =>
      if s.top == top && !weak then
        s.(top := Some(h), free := s.free + [h], place := s.place[h.node := InFree(|s.free|)],
           consumer := if found then CIdle else CHead)
      else s.(consumer := CStore(h, s.top, found))
  }

  // -------------------------------------------------------------- invariants

  /** Node `x` is in this place, in its current version. */
  ghost predicate Is<T>(s: Queue<T>, x: Idx, place: Place) {
    x.node in s.place && x.node in s.ver && x.node in s.next && s.place[x.node] == place && s.ver[x.node] == x.ver
  }

  /** The consumer owns the item of `head` but has not moved it out yet. */
  predicate HeadFull<T>(s: Queue<T>) {
    !s.consumed || s.consumer.COwn?
  }

  ghost predicate Shape<T>(s: Queue<T>) {
    && s.front < |s.order| == |s.owner| == |s.sent| + 1
    && s.head == s.order[s.front] && s.tail == s.order[|s.order| - 1]
    && s.top == (if s.free == [] then None else Some(s.free[|s.free| - 1]))
    && (s.front == 0 ==> s.consumed && !s.consumer.COwn? && !s.consumer.CGrab?)
    && (forall n :: n in s.next ==> n < s.unused) && s.place.Keys == s.ver.Keys == s.next.Keys
    && (forall n :: n in s.item ==> n in s.next)
  }

  /**
    The node at position `i` of the chain: its link, unless the one who appended is just about to
    write it, and its item.
  */
  ghost predicate ChainAt<T>(s: Queue<T>, i: nat)
    requires Shape(s) && s.front <= i < |s.order|
  {
    var x := s.order[i];
    && Is(s, x, InChain(i))
    && (s.next[x.node] == None || (i + 1 < |s.order| && s.next[x.node] == Some(s.order[i + 1])))
    && (s.next[x.node] == None && i + 1 < |s.order| ==>
          s.owner[i + 1] in s.producers && s.producers[s.owner[i + 1]] == PLink(s.order[i + 1], x, i + 1))
    && (if i == 0 || (i == s.front && !HeadFull(s)) then x.node !in s.item
        else x.node in s.item && s.item[x.node] == s.sent[i - 1])
  }

  ghost predicate FreeAt<T>(s: Queue<T>, j: nat)
    requires j < |s.free|
  {
    var x := s.free[j];
    && Is(s, x, InFree(j)) && x.node !in s.item
    && s.next[x.node] == if j == 0 then None else Some(s.free[j - 1])
  }

  /** A word that was read from the free list: as long as the version is current, its node is still there. */
  ghost predicate Seen<T>(s: Queue<T>, h: Idx) {
    && h.node in s.place && h.node in s.ver && h.node in s.next && h.ver <= s.ver[h.node]
    && (h.ver == s.ver[h.node] ==> s.place[h.node].InFree?)
  }

  ghost predicate ProducerAt<T>(s: Queue<T>, t: nat)
    requires Shape(s) && t in s.producers
  {
    match s.producers[t]
    case PFree(_, Some(h)) => Seen(s, h)
    case PPop(_, h, below) => Seen(s, h) && (h.ver == s.ver[h.node] ==> s.next[h.node] == below)
    case PInit(_, x) => Is(s, x, WithProducer(t)) && x.node !in s.item
    case PTail(v, x) => Ready(s, t, v, x)
    case PXchg(v, x, _) => Ready(s, t, v, x)
    case PLink(x, p, k) =>
      && s.front < k < |s.order| && s.order[k] == x && s.order[k - 1] == p && s.owner[k] == t
      && p.node in s.next && s.next[p.node] == None
    case _ => true
  }

  /** The producer's own node is initialised. */
  ghost predicate Ready<T>(s: Queue<T>, t: nat, v: T, x: Idx) {
    Is(s, x, WithProducer(t)) && s.next[x.node] == None && x.node in s.item && s.item[x.node] == v
  }

  ghost predicate ConsumerAt<T>(s: Queue<T>)
    requires Shape(s)
  {
    match s.consumer
    case CNext(h, consumed) => s.head == h && s.consumed == consumed
    case CTake(h) => s.head == h && !s.consumed
    case COwn(h) => s.head == h && s.consumed
    case CMove(h, consumed, n) =>
      && s.head == h && s.consumed == consumed && s.front + 1 < |s.order| && n == s.order[s.front + 1]
      && h.node in s.next && s.next[h.node] == Some(n)
    case CGrab(h) =>
      && Is(s, h, WithConsumer) && !s.consumed && s.front > 1
      && h.node in s.item && s.item[h.node] == s.sent[s.front - 2]
    case CFree(h, _) => Is(s, h, WithConsumer) && h.node !in s.item
    case CStore(h, _, _) => Is(s, h, WithConsumer) && h.node !in s.item
    case CPush(h, top, _) => Is(s, h, WithConsumer) && h.node !in s.item && s.next[h.node] == top
    case _ => true
  }

  /** How many items have been moved out. */
  function Taken<T>(s: Queue<T>): int {
    s.front - (if HeadFull(s) then 1 else 0) - (if s.consumer.CGrab? then 1 else 0)
  }

  ghost predicate Delivered<T>(s: Queue<T>) {
    0 <= Taken(s) <= |s.sent| && s.outs == s.sent[..Taken(s)]
  }

  ghost predicate Inv<T>(s: Queue<T>) {
    && Shape(s) && ConsumerAt(s) && Delivered(s)
    && (forall i | s.front <= i < |s.order| :: ChainAt(s, i))
    && (forall j | 0 <= j < |s.free| :: FreeAt(s, j))
    && (forall t | t in s.producers :: ProducerAt(s, t))
  }

  lemma InvIsSafe<T>(s: Queue<T>, c: Choice<T>)
    requires Inv(s) && (c.Produce? ==> c.t in s.producers)
    ensures Safe(s, c)
  {
    if c.Produce? {
      assert ProducerAt(s, c.t);
      var p := s.producers[c.t];
      if p.PLink? { assert ChainAt(s, p.k - 1); }
    } else {
      assert ChainAt(s, s.front);
    }
  }

  // ---------------------------------------------- what a step leaves as it is

  ghost predicate SameNode<T>(s: Queue<T>, s': Queue<T>, n: nat)
    requires Shape(s) && Shape(s') && n in s.next
  {
    && n in s'.next && s'.next[n] == s.next[n] && s'.ver[n] == s.ver[n] && s'.place[n] == s.place[n]
    && (n in s'.item <==> n in s.item) && (n in s.item ==> s'.item[n] == s.item[n])
  }

  /**
    A step touches one node, `m`. It never goes back to an old version of it, and it takes a node
    off the free list only with a new version.
  */
  ghost predicate Touches<T>(s: Queue<T>, s': Queue<T>, m: nat) {
    && Shape(s) && Shape(s')
    && (forall n | n in s.next && n != m :: SameNode(s, s', n))
    && (m in s.next ==>
          && m in s'.next && s.ver[m] <= s'.ver[m]
          && (s.place[m].InFree? ==> s.ver[m] < s'.ver[m]))
    && s.order <= s'.order && s.owner <= s'.owner && s.sent <= s'.sent && s.front <= s'.front
    && s.producers.Keys == s'.producers.Keys
  }

  lemma ChainFrame<T>(s: Queue<T>, s': Queue<T>, m: nat, i: nat)
    requires Touches(s, s', m) && s.front <= s'.front <= i < |s.order| && ChainAt(s, i) && s.order[i].node != m
    requires i == s'.front ==> (HeadFull(s') <==> i > s.front || HeadFull(s))
    requires i + 1 < |s.order| && s.next[s.order[i].node] == None ==>
      s'.producers[s.owner[i + 1]] == s.producers[s.owner[i + 1]]
    requires i + 1 == |s.order| ==> s'.order == s.order
    ensures ChainAt(s', i)
  {
    assert SameNode(s, s', s.order[i].node);
  }

  lemma FreeFrame<T>(s: Queue<T>, s': Queue<T>, m: nat, j: nat)
    requires Touches(s, s', m) && j < |s.free| && j < |s'.free| && FreeAt(s, j) && s.free[j].node != m
    requires s'.free[j] == s.free[j] && (j > 0 ==> s'.free[j - 1] == s.free[j - 1])
    ensures FreeAt(s', j)
  {
    assert SameNode(s, s', s.free[j].node);
  }

  lemma SeenFrame<T>(s: Queue<T>, s': Queue<T>, m: nat, h: Idx)
    requires Touches(s, s', m) && Seen(s, h)
    ensures Seen(s', h)
    ensures h.ver == s'.ver[h.node] ==> h.node != m && h.ver == s.ver[h.node] && s'.next[h.node] == s.next[h.node]
  {
    if h.node != m { assert SameNode(s, s', h.node); }
  }

  lemma ProducerFrame<T>(s: Queue<T>, s': Queue<T>, m: nat, u: nat)
    requires Touches(s, s', m) && u in s.producers && ProducerAt(s, u) && s'.producers[u] == s.producers[u]
    requires m in s.place ==> s.place[m] != WithProducer(u)
    requires var p := s.producers[u];
      p.PLink? ==> s'.front < p.k && p.p.node in s'.next && s'.next[p.p.node] == s.next[p.p.node]
    ensures ProducerAt(s', u)
  {
    match s.producers[u]
    case PFree(_, Some(h)) => SeenFrame(s, s', m, h);
    case PPop(_, h, _) => SeenFrame(s, s', m, h);
    case PInit(_, x) => assert SameNode(s, s', x.node);
    case PTail(_, x) => assert SameNode(s, s', x.node);
    case PXchg(_, x, _) => assert SameNode(s, s', x.node);
    case _ =>
  }

  /** A producer's step leaves what the consumer relies on. */
  lemma ConsumerFrame<T>(s: Queue<T>, s': Queue<T>, m: nat)
    requires Inv(s) && Touches(s, s', m)
    requires s'.head == s.head && s'.consumed == s.consumed && s'.consumer == s.consumer
    requires s'.front == s.front && s'.outs == s.outs
    requires m in s.place ==>
      s.place[m] != WithConsumer && (s.place[m] == InChain(s.front) && s.next[m] != None ==> s'.next[m] == s.next[m])
    ensures ConsumerAt(s') && Delivered(s')
  {
    ConsumerStays(s, s', m);
    assert Taken(s') == Taken(s);
  }

  lemma ConsumerStays<T>(s: Queue<T>, s': Queue<T>, m: nat)
    requires Inv(s) && Touches(s, s', m)
    requires s'.head == s.head && s'.consumed == s.consumed && s'.consumer == s.consumer && s'.front == s.front
    requires m in s.place ==>
      s.place[m] != WithConsumer && (s.place[m] == InChain(s.front) && s.next[m] != None ==> s'.next[m] == s.next[m])
    ensures ConsumerAt(s')
  {
    var c := s.consumer;
    if c.CMove? {
      assert ChainAt(s, s.front);
      if c.h.node != m { assert SameNode(s, s', c.h.node); }
    } else if c.CGrab? || c.CFree? || c.CStore? || c.CPush? {
      assert SameNode(s, s', c.h.node);
    }
  }
}
