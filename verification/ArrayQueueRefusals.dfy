/**
  What it means that the lock-free ring refuses a call. `enqueue` and `dequeue` compare local
  copies of two indices modulo the size of the ring, so a refusal can be false; this module says
  for which groups of producers and consumers it never is.
*/
module ArrayQueueRefusals {
  import opened ArrayQueue

  /** The next step of thread `t` makes its call return false. */
  predicate Refuses<T>(s: State<T>, t: nat)
    requires |s.slots| > 0 && t in s.threads
  {
    (s.threads[t].EnqLoadRead? || s.threads[t].DeqLoadMax?) && Next(s, Choice(t, Dequeue)).threads[t].Idle?
  }

  predicate IsFull<T>(s: State<T>) {
    s.write == s.read + |s.slots| - 1
  }

  /** Only the threads in `producers` ever enqueue, and only those in `consumers` ever dequeue. */
  ghost predicate Allowed<T>(s: State<T>, cs: seq<Choice<T>>, producers: set<nat>, consumers: set<nat>) {
    Schedulable(s, cs) && forall i | 0 <= i < |cs| :: InRole(cs[i], producers, consumers)
  }

  predicate InRole<T>(c: Choice<T>, producers: set<nat>, consumers: set<nat>) {
    c.tid in if c.call.Enqueue? then producers else consumers
  }

  // ------------------------------------------------------- what a thread is doing

  predicate Dequeuing<T>(p: Phase<T>) {
    !Enqueuing(p) && !p.Idle?
  }

  /** Threads keep to their roles. */
  ghost predicate Roles<T>(s: State<T>, producers: set<nat>, consumers: set<nat>) {
    forall t | t in s.threads ::
      (Enqueuing(s.threads[t]) ==> t in producers) && (Dequeuing(s.threads[t]) ==> t in consumers)
  }

  /** No copy of the write index is stale. */
  ghost predicate WriteFresh<T>(s: State<T>) {
    forall t | t in s.threads ::
      match s.threads[t]
      case EnqLoadRead(_, w) => w == s.write
      case EnqReserve(_, w, _) => w == s.write
      case _ => true
  }

  /** No copy of the read index is stale. */
  ghost predicate ReadFresh<T>(s: State<T>) {
    forall t | t in s.threads ::
      match s.threads[t]
      case DeqLoadMax(r) => r == s.read
      case DeqCopy(r) => r == s.read
      case DeqClaim(r, _) => r == s.read
      case _ => true
  }

  /** Which of the two indices never has a stale copy, for groups of these sizes. */
  ghost predicate Fresh<T>(s: State<T>, producers: set<nat>, consumers: set<nat>) {
    && Roles(s, producers, consumers)
    && (|producers| <= 1 ==> WriteFresh(s)) && (|consumers| <= 1 ==> ReadFresh(s))
    && (producers == {} ==> s.write == 0) && (consumers == {} ==> s.read == 0)
  }

  lemma AtMostOne(s: set<nat>, a: nat, b: nat)
    requires |s| <= 1 && a in s && b in s
    ensures a == b
  {
    assert |s - {a}| == |s| - 1;
    assert b != a ==> b in s - {a};
  }

  lemma RolesStep<T>(s: State<T>, c: Choice<T>, producers: set<nat>, consumers: set<nat>)
    requires |s.slots| > 0 && c.tid in s.threads && Roles(s, producers, consumers) && InRole(c, producers, consumers)
    ensures Roles(Next(s, c), producers, consumers)
  {
    var s' := Next(s, c);
    forall t | t in s'.threads
      ensures Enqueuing(s'.threads[t]) ==> t in producers
      ensures Dequeuing(s'.threads[t]) ==> t in consumers
    {
      if t != c.tid { OthersStay(s, c, t); }
    }
  }

  lemma WriteFreshStep<T>(s: State<T>, c: Choice<T>, producers: set<nat>, consumers: set<nat>)
    requires |s.slots| > 0 && c.tid in s.threads && Roles(s, producers, consumers)
    requires |producers| <= 1 && WriteFresh(s)
    ensures WriteFresh(Next(s, c))
  {
    var s' := Next(s, c);
    forall t | t in s'.threads
      ensures s'.threads[t].EnqLoadRead? ==> s'.threads[t].w == s'.write
      ensures s'.threads[t].EnqReserve? ==> s'.threads[t].w == s'.write
    {
      if t != c.tid {
        OthersStay(s, c, t);
        if s'.write != s.write && Enqueuing(s.threads[t]) { AtMostOne(producers, t, c.tid); }
      }
    }
  }

  lemma ReadFreshStep<T>(s: State<T>, c: Choice<T>, producers: set<nat>, consumers: set<nat>)
    requires |s.slots| > 0 && c.tid in s.threads && Roles(s, producers, consumers)
    requires |consumers| <= 1 && ReadFresh(s)
    ensures ReadFresh(Next(s, c))
  {
    var s' := Next(s, c);
    forall t | t in s'.threads
      ensures s'.threads[t].DeqLoadMax? || s'.threads[t].DeqCopy? || s'.threads[t].DeqClaim? ==>
        s'.threads[t].r == s'.read
    {
      if t != c.tid {
        OthersStay(s, c, t);
        if s'.read != s.read && Dequeuing(s.threads[t]) { AtMostOne(consumers, t, c.tid); }
      }
    }
  }

  lemma {:induction false} StaysFresh<T>(s: State<T>, cs: seq<Choice<T>>, producers: set<nat>, consumers: set<nat>)
    requires Start(s) && Allowed(s, cs, producers, consumers)
    ensures Fresh(After(s, cs), producers, consumers)
  {
    if cs != [] {
      var before, c := After(s, cs[..|cs| - 1]), cs[|cs| - 1];
      StaysFresh(s, cs[..|cs| - 1], producers, consumers);
      assert InRole(c, producers, consumers);
      RolesStep(before, c, producers, consumers);
      if |producers| <= 1 { WriteFreshStep(before, c, producers, consumers); }
      if |consumers| <= 1 { ReadFreshStep(before, c, producers, consumers); }
    }
  }

  // --------------------------------------------------------- refusals that are true

  /** With one producer and any number of consumers `enqueue` refuses exactly if the ring is full at that moment. */
  lemma OneProducerSeesFull<T>(s: State<T>, cs: seq<Choice<T>>, producers: set<nat>, consumers: set<nat>, t: nat)
    requires Start(s) && Allowed(s, cs, producers, consumers) && |producers| <= 1
    requires t in s.threads && After(s, cs).threads[t].EnqLoadRead?
    ensures Refuses(After(s, cs), t) <==> IsFull(After(s, cs))
  {
    var s' := After(s, cs);
    AfterInv(s, cs);
    StaysFresh(s, cs, producers, consumers);
    FullMeansFull(s'.write, s'.read, |s'.slots|);
  }

  /** With one consumer and any number of producers `dequeue` refuses exactly if nothing committed is left. */
  lemma OneConsumerSeesEmpty<T>(s: State<T>, cs: seq<Choice<T>>, producers: set<nat>, consumers: set<nat>, t: nat)
    requires Start(s) && Allowed(s, cs, producers, consumers) && |consumers| <= 1
    requires t in s.threads && After(s, cs).threads[t].DeqLoadMax?
    ensures Refuses(After(s, cs), t) <==> After(s, cs).read == After(s, cs).max
  {
    var s' := After(s, cs);
    AfterInv(s, cs);
    StaysFresh(s, cs, producers, consumers);
    EmptyMeansEmpty(s'.read, s'.max, |s'.slots|);
  }

  // --------------------------------------------------------- refusals that are false

  /** The run `cs` leads from `s` to `s'`. */
  ghost predicate Leads<T>(s: State<T>, cs: seq<Choice<T>>, producers: set<nat>, consumers: set<nat>, s': State<T>) {
    Allowed(s, cs, producers, consumers) && After(s, cs) == s'
  }

  lemma Go<T>(s: State<T>, cs: seq<Choice<T>>, s1: State<T>, c: Choice<T>, s2: State<T>, producers: set<nat>,
        consumers: set<nat>)
    returns (cs': seq<Choice<T>>)
    requires Leads(s, cs, producers, consumers, s1) && InRole(c, producers, consumers)
    requires |s1.slots| > 0 && c.tid in s.threads && c.tid in s1.threads && Next(s1, c) == s2
    ensures Leads(s, cs', producers, consumers, s2)
  {
    cs' := cs + [c];
    assert cs'[..|cs'| - 1] == cs;
  }

  lemma SetTwice<T>(s: State<T>, t: nat, a: Phase<T>, b: Phase<T>)
    ensures Set(Set(s, t, a), t, b) == Set(s, t, b)
    ensures t in s.threads && s.threads[t] == b ==> Set(s, t, b) == s
  {
    assert s.threads[t := a][t := b] == s.threads[t := b];
    if t in s.threads && s.threads[t] == b { assert s.threads[t := b] == s.threads; }
  }

  /** A whole enqueue of thread `t` that nobody disturbs. */
  ghost function Enqueued<T>(s: State<T>, t: nat, v: T): State<T>
    requires |s.slots| > 0
  {
    s.(write := s.write + 1, max := s.write + 1, count := s.count + 1, vals := s.vals + [v], owner := s.owner + [t],
       slots := s.slots[ToIndex(s.write, |s.slots|) := v])
  }

  /** A whole dequeue that nobody disturbs. */
  ghost function Dequeued<T>(s: State<T>): State<T>
    requires |s.slots| > 0
  {
    s.(read := s.read + 1, count := s.count - 1, outs := s.outs + [s.slots[ToIndex(s.read, |s.slots|)]])
  }

  /** A run that has led to a state in which thread `t` may start a call. */
  ghost predicate Ready<T>(s0: State<T>, cs: seq<Choice<T>>, s: State<T>, producers: set<nat>, consumers: set<nat>,
        t: nat) {
    && Leads(s0, cs, producers, consumers, s) && t in s0.threads && t in s.threads && s.threads[t] == Idle
    && |s.slots| > 0 && s.read <= s.max <= s.write <= s.read + |s.slots| - 1
  }

  lemma EnqueueReserves<T>(s0: State<T>, cs: seq<Choice<T>>, s: State<T>, producers: set<nat>, consumers: set<nat>,
        t: nat, v: T)
    returns (cs': seq<Choice<T>>)
    requires Ready(s0, cs, s, producers, consumers, t) && t in producers && !IsFull(s)
    ensures Leads(s0, cs', producers, consumers,
                  Set(s.(write := s.write + 1, vals := s.vals + [v], owner := s.owner + [t]), t, EnqStore(v, s.write)))
  {
    var c, w := Choice(t, Enqueue(v)), s.write;
    FullMeansFull(w, s.read, |s.slots|);
    cs' := Go(s0, cs, s, c, Set(s, t, EnqLoadWrite(v)), producers, consumers);
    SetTwice(s, t, EnqLoadWrite(v), EnqLoadRead(v, w));
    cs' := Go(s0, cs', Set(s, t, EnqLoadWrite(v)), c, Set(s, t, EnqLoadRead(v, w)), producers, consumers);
    SetTwice(s, t, EnqLoadRead(v, w), EnqReserve(v, w, s.read));
    cs' := Go(s0, cs', Set(s, t, EnqLoadRead(v, w)), c, Set(s, t, EnqReserve(v, w, s.read)), producers, consumers);
    SetTwice(s, t, EnqReserve(v, w, s.read), EnqStore(v, w));
    cs' := Go(s0, cs', Set(s, t, EnqReserve(v, w, s.read)), c,
              Set(s.(write := w + 1, vals := s.vals + [v], owner := s.owner + [t]), t, EnqStore(v, w)), producers,
                consumers);
  }

  lemma EnqueueRun<T>(s0: State<T>, cs: seq<Choice<T>>, s: State<T>, producers: set<nat>, consumers: set<nat>,
        t: nat, v: T)
    returns (cs': seq<Choice<T>>)
    requires Ready(s0, cs, s, producers, consumers, t) && t in producers && !IsFull(s) && s.max == s.write
    ensures Leads(s0, cs', producers, consumers, Enqueued(s, t, v))
  {
    var c, w := Choice(t, Enqueue(v)), s.write;
    cs' := EnqueueReserves(s0, cs, s, producers, consumers, t, v);
    var r := s.(write := w + 1, vals := s.vals + [v], owner := s.owner + [t]);
    var u := r.(slots := s.slots[ToIndex(w, |s.slots|) := v]);
    SetTwice(r, t, EnqStore(v, w), EnqCommit(v, w));
    cs' := Go(s0, cs', Set(r, t, EnqStore(v, w)), c, Set(u, t, EnqCommit(v, w)), producers, consumers);
    SetTwice(u, t, EnqCommit(v, w), EnqCount);
    cs' := Go(s0, cs', Set(u, t, EnqCommit(v, w)), c, Set(u.(max := w + 1), t, EnqCount), producers, consumers);
    SetTwice(u.(max := w + 1), t, EnqCount, Idle);
    cs' := Go(s0, cs', Set(u.(max := w + 1), t, EnqCount), c, Enqueued(s, t, v), producers, consumers);
  }

  lemma DequeueLooks<T>(s0: State<T>, cs: seq<Choice<T>>, s: State<T>, producers: set<nat>, consumers: set<nat>, t: nat)
    returns (cs': seq<Choice<T>>)
    requires Ready(s0, cs, s, producers, consumers, t) && t in consumers
    ensures Leads(s0, cs', producers, consumers, Set(s, t, DeqLoadMax(s.read)))
  {
    var c: Choice<T> := Choice(t, Dequeue);
    cs' := Go(s0, cs, s, c, Set(s, t, DeqLoadRead), producers, consumers);
    SetTwice(s, t, DeqLoadRead, DeqLoadMax(s.read));
    cs' := Go(s0, cs', Set(s, t, DeqLoadRead), c, Set(s, t, DeqLoadMax(s.read)), producers, consumers);
  }

  lemma DequeueClaims<T>(s0: State<T>, cs: seq<Choice<T>>, s: State<T>, producers: set<nat>, consumers: set<nat>,
        t: nat)
    returns (cs': seq<Choice<T>>)
    requires Ready(s0, cs, s, producers, consumers, t) && t in consumers && s.read < s.max
    ensures Leads(s0, cs', producers, consumers, Set(s, t, DeqClaim(s.read, s.slots[ToIndex(s.read, |s.slots|)])))
  {
    var c: Choice<T>, r := Choice(t, Dequeue), s.read;
    var x := s.slots[ToIndex(r, |s.slots|)];
    cs' := DequeueLooks(s0, cs, s, producers, consumers, t);
    EmptyMeansEmpty(r, s.max, |s.slots|);
    SetTwice(s, t, DeqLoadMax(r), DeqCopy(r));
    cs' := Go(s0, cs', Set(s, t, DeqLoadMax(r)), c, Set(s, t, DeqCopy(r)), producers, consumers);
    SetTwice(s, t, DeqCopy(r), DeqClaim(r, x));
    cs' := Go(s0, cs', Set(s, t, DeqCopy(r)), c, Set(s, t, DeqClaim(r, x)), producers, consumers);
  }

  lemma DequeueRun<T>(s0: State<T>, cs: seq<Choice<T>>, s: State<T>, producers: set<nat>, consumers: set<nat>, t: nat)
    returns (cs': seq<Choice<T>>)
    requires Ready(s0, cs, s, producers, consumers, t) && t in consumers && s.read < s.max
    ensures Leads(s0, cs', producers, consumers, Dequeued(s))
  {
    var c: Choice<T>, r := Choice(t, Dequeue), s.read;
    var x := s.slots[ToIndex(r, |s.slots|)];
    var u := s.(read := r + 1, outs := s.outs + [x]);
    cs' := DequeueClaims(s0, cs, s, producers, consumers, t);
    SetTwice(s, t, DeqClaim(r, x), DeqCount);
    cs' := Go(s0, cs', Set(s, t, DeqClaim(r, x)), c, Set(u, t, DeqCount), producers, consumers);
    SetTwice(u, t, DeqCount, Idle);
    cs' := Go(s0, cs', Set(u, t, DeqCount), c, Dequeued(s), producers, consumers);
  }

  /** One item goes through the ring while thread `t` waits between its first two loads. */
  lemma OneThrough<T>(s0: State<T>, cs: seq<Choice<T>>, s: State<T>, producers: set<nat>, consumers: set<nat>,
        p: nat, c: nat, v: T)
    returns (cs': seq<Choice<T>>)
    requires Ready(s0, cs, s, producers, consumers, p) && Ready(s0, cs, s, producers, consumers, c)
    requires p in producers && c in consumers && |s.slots| >= 2 && s.write == s.read == s.max
    ensures Leads(s0, cs', producers, consumers, Dequeued(Enqueued(s, p, v)))
  {
    cs' := EnqueueRun(s0, cs, s, producers, consumers, p, v);
    cs' := DequeueRun(s0, cs', Enqueued(s, p, v), producers, consumers, c);
  }

  /**
    In a ring of any size above one: if a producer is delayed between its two loads, another one
    enqueues and a consumer dequeues one item, the first is refused although the ring is empty.
  */
  lemma FalseFull<T>(s: State<T>, producers: set<nat>, consumers: set<nat>, t: nat, p: nat, c: nat)
    returns (cs: seq<Choice<T>>)
    requires Start(s) && |s.slots| >= 2 && {t, p, c} <= s.threads.Keys
    requires t in producers && p in producers && c in consumers && p != t && c != t
    ensures Allowed(s, cs, producers, consumers)
    ensures var s' := After(s, cs);
      s'.threads[t].EnqLoadRead? && Refuses(s', t) && s'.read == s'.max == s'.write == 1
  {
    var v := s.slots[0];
    var d := Set(s, t, EnqLoadRead(v, 0));
    cs := Go(s, [], s, Choice(t, Enqueue(v)), Set(s, t, EnqLoadWrite(v)), producers, consumers);
    SetTwice(s, t, EnqLoadWrite(v), EnqLoadRead(v, 0));
    cs := Go(s, cs, Set(s, t, EnqLoadWrite(v)), Choice(t, Enqueue(v)), d, producers, consumers);
    cs := OneThrough(s, cs, d, producers, consumers, p, c, v);
  }

  /** Thread `p` enqueues until the ring is full. */
  lemma FillUp<T>(s0: State<T>, cs: seq<Choice<T>>, s: State<T>, producers: set<nat>, consumers: set<nat>, p: nat, v: T)
    returns (cs': seq<Choice<T>>, s': State<T>)
    requires Ready(s0, cs, s, producers, consumers, p) && p in producers && s.max == s.write
    ensures Leads(s0, cs', producers, consumers, s') && s'.threads == s.threads && |s'.slots| == |s.slots|
    ensures s'.read == s.read && s'.max == s'.write && IsFull(s')
    decreases s.read + |s.slots| - s.write
  {
    cs', s' := cs, s;
    if !IsFull(s) {
      cs' := EnqueueRun(s0, cs, s, producers, consumers, p, v);
      cs', s' := FillUp(s0, cs', Enqueued(s, p, v), producers, consumers, p, v);
    }
  }

  /** After a whole ring the copy 0 of the read index looks like the commit index. */
  lemma ToldEmpty<T>(s: State<T>, t: nat)
    requires t in s.threads && s.threads[t] == DeqLoadMax(0) && s.max == |s.slots| > 0
    ensures Refuses(s, t)
  {
    SameSlot(0, |s.slots|);
  }

  /**
    In a ring of any size above one: if a consumer is delayed between its two loads, another one
    dequeues an item and a producer then fills the ring, the first is told that there is nothing.
  */
  lemma FalseEmpty<T>(s: State<T>, producers: set<nat>, consumers: set<nat>, t: nat, p: nat, c: nat)
    returns (cs: seq<Choice<T>>)
    requires Start(s) && |s.slots| >= 2 && {t, p, c} <= s.threads.Keys
    requires p in producers && t in consumers && c in consumers && p != t && c != t
    ensures Allowed(s, cs, producers, consumers)
    ensures var s' := After(s, cs);
      s'.threads[t].DeqLoadMax? && Refuses(s', t) && s'.max - s'.read == |s'.slots| - 1
  {
    var v, d := s.slots[0], Set(s, t, DeqLoadMax(0));
    cs := DequeueLooks(s, [], s, producers, consumers, t);
    cs := OneThrough(s, cs, d, producers, consumers, p, c, v);
    var g;
    cs, g := FillUp(s, cs, Dequeued(Enqueued(d, p, v)), producers, consumers, p, v);
    ToldEmpty(g, t);
  }

  // -------------------------------------------------------- exactly when they are true

  /** Whoever is refused an enqueue, the ring is full. */
  ghost predicate FullIsTrue<T>(s: State<T>)
    requires |s.slots| > 0
  {
    forall t | t in s.threads && s.threads[t].EnqLoadRead? && Refuses(s, t) :: IsFull(s)
  }

  /** Whoever is refused a dequeue, nothing committed is left. */
  ghost predicate EmptyIsTrue<T>(s: State<T>)
    requires |s.slots| > 0
  {
    forall t | t in s.threads && s.threads[t].DeqLoadMax? && Refuses(s, t) :: s.read == s.max
  }

  /** Without consumers the write index cannot come round, so a stale copy of it cannot mislead. */
  lemma NoConsumer<T>(s: State<T>, t: nat)
    requires Inv(s) && s.read == 0 && t in s.threads && s.threads[t].EnqLoadRead? && Refuses(s, t)
    ensures IsFull(s)
  {
    assert ThreadOk(s, t);
    var w := s.threads[t].w;
    FullMeansFull(w, 0, |s.slots|);
  }

  lemma TwoOf(a: set<nat>)
    returns (x: nat, y: nat)
    requires |a| > 1
    ensures x in a && y in a && x != y
  {
    x :| x in a;
    assert |a - {x}| == |a| - 1;
    y :| y in a - {x};
  }

  lemma FullHolds<T>(s: State<T>, cs: seq<Choice<T>>, producers: set<nat>, consumers: set<nat>)
    requires Start(s) && Allowed(s, cs, producers, consumers)
    requires |s.slots| == 1 || |producers| <= 1 || consumers == {}
    ensures FullIsTrue(After(s, cs))
  {
    var s' := After(s, cs);
    AfterInv(s, cs);
    StaysFresh(s, cs, producers, consumers);
    forall t | t in s'.threads && s'.threads[t].EnqLoadRead? && Refuses(s', t)
      ensures IsFull(s')
    {
      if |s.slots| != 1 {
        if |producers| <= 1 { OneProducerSeesFull(s, cs, producers, consumers, t); } else { NoConsumer(s', t); }
      }
    }
  }

  lemma EmptyHolds<T>(s: State<T>, cs: seq<Choice<T>>, producers: set<nat>, consumers: set<nat>)
    requires Start(s) && Allowed(s, cs, producers, consumers)
    requires |s.slots| == 1 || |consumers| <= 1 || producers == {}
    ensures EmptyIsTrue(After(s, cs))
  {
    var s' := After(s, cs);
    AfterInv(s, cs);
    StaysFresh(s, cs, producers, consumers);
    forall t | t in s'.threads && s'.threads[t].DeqLoadMax? && Refuses(s', t)
      ensures s'.read == s'.max
    {
      if |s.slots| != 1 && |consumers| <= 1 { OneConsumerSeesEmpty(s, cs, producers, consumers, t); }
    }
  }

  /**
    A refused enqueue means a full ring in every interleaving of these threads exactly if there is
    at most one producer, or nobody consumes, or the ring has no room at all.
  */
  lemma FullExactly<T>(s: State<T>, producers: set<nat>, consumers: set<nat>)
    requires Start(s) && producers + consumers <= s.threads.Keys
    ensures (forall cs | Allowed(s, cs, producers, consumers) :: FullIsTrue(After(s, cs))) <==>
      |s.slots| == 1 || |producers| <= 1 || consumers == {}
  {
    if |s.slots| == 1 || |producers| <= 1 || consumers == {} {
      forall cs | Allowed(s, cs, producers, consumers)
        ensures FullIsTrue(After(s, cs))
      {
        FullHolds(s, cs, producers, consumers);
      }
    } else {
      var c :| c in consumers;
      var t, p := TwoOf(producers);
      if t == c { t, p := p, t; }
      var cs := FalseFull(s, producers, consumers, t, p, c);
      assert !FullIsTrue(After(s, cs));
    }
  }

  /**
    A refused dequeue means that nothing committed is left, in every interleaving, exactly if there
    is at most one consumer, or nobody produces, or the ring has no room at all.
  */
  lemma EmptyExactly<T>(s: State<T>, producers: set<nat>, consumers: set<nat>)
    requires Start(s) && producers + consumers <= s.threads.Keys
    ensures (forall cs | Allowed(s, cs, producers, consumers) :: EmptyIsTrue(After(s, cs))) <==>
      |s.slots| == 1 || |consumers| <= 1 || producers == {}
  {
    if |s.slots| == 1 || |consumers| <= 1 || producers == {} {
      forall cs | Allowed(s, cs, producers, consumers)
        ensures EmptyIsTrue(After(s, cs))
      {
        EmptyHolds(s, cs, producers, consumers);
      }
    } else {
      var p :| p in producers;
      var t, c := TwoOf(consumers);
      if t == p { t, c := c, t; }
      var cs := FalseEmpty(s, producers, consumers, t, p, c);
      assert !EmptyIsTrue(After(s, cs));
    }
  }
}
