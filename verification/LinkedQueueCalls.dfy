/**
  What whole calls of the linked queue come to: every `enqueue` appends the value it was called with,
  once, and every `try_dequeue` either refuses or takes one item.
*/
module LinkedQueueCalls {
  import opened Options
  import opened LinkedQueue
  import opened LinkedQueueSteps
  import opened LinkedQueueRuns
  import opened Shares

  /** The thread that appended each item; the first node has none. */
  function Authors<T>(s: Queue<T>): seq<nat>
    requires |s.owner| == |s.sent| + 1
  {
    s.owner[1..]
  }

  /** The value a producer has in its hands and has not appended yet. */
  function Carries<T>(p: Producer<T>): Option<T> {
    match p
    case PIdle => None
    case PLink(_, _, _) => None
    case PAlloc(v) => Some(v)
    case PFree(v, _) => Some(v)
    case PPop(v, _, _) => Some(v)
    case PInit(v, _) => Some(v)
    case PTail(v, _) => Some(v)
    case PXchg(v, _, _) => Some(v)
  }

  function InHand<T>(p: Producer<T>): seq<T> {
    if Carries(p).Some? then [Carries(p).value] else []
  }

  /** Of the values `said` that thread `t` has enqueued so far, all but the one in its hands are in the queue. */
  ghost predicate Spoken<T>(owner: seq<nat>, sent: seq<T>, p: Producer<T>, t: nat, said: seq<T>)
    requires |owner| == |sent|
  {
    said == By(owner, sent, t) + InHand(p)
  }

  /** The consumer's call began when `had` items had been taken. */
  ghost predicate ConsumerHas<T>(s: Queue<T>, had: nat) {
    match s.consumer
    case CIdle => true
    case CFree(_, found) => |s.outs| == had + (if found then 1 else 0)
    case CStore(_, _, found) => |s.outs| == had + (if found then 1 else 0)
    case CPush(_, _, found) => |s.outs| == had + (if found then 1 else 0)
    case _ => |s.outs| == had
  }

  /** What `try_dequeue` returns if it returns with the consumer's next step. */
  function Answer<T>(s: Queue<T>, weak: bool): Option<bool>
    requires Safe(s, Consume(weak))
  {
    match s.consumer
    case CNext(h, consumed) => if consumed && s.next[h.node].None? then Some(false) else None
    case COwn(_) => Some(true)
    case CPush(_, top, found) => if found && s.top == top && !weak then Some(true) else None
    case _ => None
  }

  /** A run, what each thread has enqueued in it, and the items taken before the latest `try_dequeue`. */
  datatype Log<T> = Log(s: Queue<T>, said: map<nat, seq<T>>, had: nat)

  ghost predicate Kept<T>(l: Log<T>) {
    Inv(l.s) && AllSpoken(Authors(l.s), l.s.sent, l.s.producers, l.said) && ConsumerHas(l.s, l.had)
  }

  ghost predicate AllSpoken<T>(owner: seq<nat>, sent: seq<T>, ps: map<nat, Producer<T>>, said: map<nat, seq<T>>)
    requires |owner| == |sent|
  {
    said.Keys == ps.Keys && forall t | t in ps :: Spoken(owner, sent, ps[t], t, said[t])
  }

  function Said<T>(s: Queue<T>, said: map<nat, seq<T>>, c: Choice<T>): map<nat, seq<T>>
    requires said.Keys == s.producers.Keys
  {
    if c.Produce? && c.t in s.producers && s.producers[c.t].PIdle? then said[c.t := said[c.t] + [c.v]] else said
  }

  function Had<T>(s: Queue<T>, had: nat, c: Choice<T>): nat {
    if c.Consume? && s.consumer.CIdle? then |s.outs| else had
  }

  ghost function Then<T>(l: Log<T>, c: Choice<T>): Log<T>
    requires Kept(l)
  {
    if Fits(l.s, c) then
      NextKeeps(l.s, c);
      Log(Next(l.s, c), Said(l.s, l.said, c), Had(l.s, l.had, c))
    else l
  }

  /** What a producer's step is to the others, and to what has been appended. */
  ghost predicate Moves<T>(s: Queue<T>, s': Queue<T>, t: nat, call: T)
    requires t in s.producers
  {
    && s'.outs == s.outs && s'.consumer == s.consumer
    && t in s'.producers && s'.producers == s.producers[t := s'.producers[t]]
    && var p, p' := s.producers[t], s'.producers[t];
      if p.PXchg? && p'.PLink? then s'.owner == s.owner + [t] && s'.sent == s.sent + [p.v]
      else s'.owner == s.owner && s'.sent == s.sent && Carries(p') == if p.PIdle? then Some(call) else Carries(p)
  }

  lemma LoadMoves<T>(s: Queue<T>, t: nat, call: T, weak: bool)
    requires Safe(s, Produce(t, call, weak))
    requires s.producers[t].PIdle? || s.producers[t].PAlloc? || s.producers[t].PTail?
    ensures Moves(s, ProducerStep(s, t, call, weak), t, call)
  {
  }

  lemma NodeMoves<T>(s: Queue<T>, t: nat, call: T, weak: bool)
    requires Safe(s, Produce(t, call, weak)) && (s.producers[t].PFree? || s.producers[t].PInit?)
    ensures Moves(s, ProducerStep(s, t, call, weak), t, call)
  {
  }

  lemma PopMoves<T>(s: Queue<T>, t: nat, call: T, weak: bool)
    requires Safe(s, Produce(t, call, weak)) && s.producers[t].PPop?
    ensures Moves(s, ProducerStep(s, t, call, weak), t, call)
  {
  }

  lemma TailMoves<T>(s: Queue<T>, t: nat, call: T, weak: bool)
    requires Safe(s, Produce(t, call, weak)) && (s.producers[t].PXchg? || s.producers[t].PLink?)
    ensures Moves(s, ProducerStep(s, t, call, weak), t, call)
  {
  }

  lemma ProducerMoves<T>(s: Queue<T>, t: nat, call: T, weak: bool)
    requires Safe(s, Produce(t, call, weak))
    ensures Moves(s, ProducerStep(s, t, call, weak), t, call)
  {
    match s.producers[t]
    case PFree(_, _) => NodeMoves(s, t, call, weak);
    case PInit(_, _) => NodeMoves(s, t, call, weak);
    case PPop(_, _, _) => PopMoves(s, t, call, weak);
    case PXchg(_, _, _) => TailMoves(s, t, call, weak);
    case PLink(_, _, _) => TailMoves(s, t, call, weak);
    case _ => LoadMoves(s, t, call, weak);
  }

  /** What a consumer's step is to the producers, and to the call in progress. */
  ghost predicate Serves<T>(s: Queue<T>, s': Queue<T>, had: nat) {
    && s'.producers == s.producers && s'.owner == s.owner && s'.sent == s.sent
    && (ConsumerHas(s, had) ==> ConsumerHas(s', if s.consumer.CIdle? then |s.outs| else had))
  }

  /**
    The call returns with this step exactly if the consumer is idle after it: with true if one item
    has been taken since the call began, with false if none has.
  */
  ghost predicate Returns<T>(s: Queue<T>, s': Queue<T>, had: nat, answer: Option<bool>) {
    match answer
    case None => !s'.consumer.CIdle?
    case Some(found) => s'.consumer.CIdle? && |s'.outs| == had + if found then 1 else 0
  }

  lemma LookServes<T>(s: Queue<T>, had: nat, weak: bool)
    requires Safe(s, Consume(weak))
    requires s.consumer.CIdle? || s.consumer.CHead? || s.consumer.CNext? || s.consumer.CTake?
    ensures var s' := ConsumerStep(s, weak);
      Serves(s, s', had) && (ConsumerHas(s, had) ==> Returns(s, s', had, Answer(s, weak)))
  {
  }

  lemma TakeServes<T>(s: Queue<T>, had: nat, weak: bool)
    requires Safe(s, Consume(weak)) && (s.consumer.COwn? || s.consumer.CMove? || s.consumer.CGrab? || s.consumer.CFree?)
    ensures var s' := ConsumerStep(s, weak);
      Serves(s, s', had) && (ConsumerHas(s, had) ==> Returns(s, s', had, Answer(s, weak)))
  {
  }

  lemma StoreServes<T>(s: Queue<T>, had: nat, weak: bool)
    requires Safe(s, Consume(weak)) && s.consumer.CStore?
    ensures var s' := ConsumerStep(s, weak);
      Serves(s, s', had) && (ConsumerHas(s, had) ==> Returns(s, s', had, Answer(s, weak)))
  {
  }

  lemma RetryServes<T>(s: Queue<T>, had: nat, weak: bool)
    requires Safe(s, Consume(weak)) && s.consumer.CPush? && (weak || s.top != s.consumer.top)
    ensures var s' := ConsumerStep(s, weak);
      Serves(s, s', had) && (ConsumerHas(s, had) ==> Returns(s, s', had, Answer(s, weak)))
  {
  }

  lemma PushServes<T>(s: Queue<T>, had: nat, weak: bool)
    requires Safe(s, Consume(weak)) && s.consumer.CPush? && !weak && s.top == s.consumer.top
    ensures var s' := ConsumerStep(s, weak);
      Serves(s, s', had) && (ConsumerHas(s, had) ==> Returns(s, s', had, Answer(s, weak)))
  {
  }

  lemma ConsumerServes<T>(s: Queue<T>, had: nat, weak: bool)
    requires Safe(s, Consume(weak))
    ensures var s' := ConsumerStep(s, weak);
      Serves(s, s', had) && (ConsumerHas(s, had) ==> Returns(s, s', had, Answer(s, weak)))
  {
    match s.consumer
    case COwn(_) => TakeServes(s, had, weak);
    case CMove(_, _, _) => TakeServes(s, had, weak);
    case CGrab(_) => TakeServes(s, had, weak);
    case CFree(_, _) => TakeServes(s, had, weak);
    case CStore(_, _, _) => StoreServes(s, had, weak);
    case CPush(_, top, _) =>
      if weak || s.top != top { RetryServes(s, had, weak); } else { PushServes(s, had, weak); }
    case _ => LookServes(s, had, weak);
  }

  // --------------------------------------------------------------------- runs

  /** A value goes from a producer's hands into the queue. */
  lemma AppendSpoken<T>(owner: seq<nat>, sent: seq<T>, ps: map<nat, Producer<T>>, said: map<nat, seq<T>>,
        t: nat, v: T, p: Producer<T>)
    requires |owner| == |sent| && AllSpoken(owner, sent, ps, said)
    requires t in ps && InHand(ps[t]) == [v] && InHand(p) == []
    ensures AllSpoken(owner + [t], sent + [v], ps[t := p], said)
  {
    forall u | u in ps
      ensures Spoken(owner + [t], sent + [v], ps[t := p][u], u, said[u])
    {
      assert Spoken(owner, sent, ps[u], u, said[u]);
      ByOneMore(owner, sent, t, v, u);
    }
  }

  /** A call begins, or goes on without appending. */
  lemma HandSpoken<T>(owner: seq<nat>, sent: seq<T>, ps: map<nat, Producer<T>>, said: map<nat, seq<T>>,
        t: nat, p: Producer<T>, more: seq<T>)
    requires |owner| == |sent| && AllSpoken(owner, sent, ps, said)
    requires t in ps && InHand(p) == InHand(ps[t]) + more
    ensures AllSpoken(owner, sent, ps[t := p], said[t := said[t] + more])
  {
    forall u | u in ps
      ensures Spoken(owner, sent, ps[t := p][u], u, said[t := said[t] + more][u])
    {
      assert Spoken(owner, sent, ps[u], u, said[u]);
    }
  }

  lemma ProducerThen<T>(s: Queue<T>, s': Queue<T>, t: nat, call: T, said: map<nat, seq<T>>)
    requires |s.owner| == |s.sent| + 1 && t in s.producers && Moves(s, s', t, call)
    requires AllSpoken(Authors(s), s.sent, s.producers, said)
    ensures |s'.owner| == |s'.sent| + 1
    ensures AllSpoken(Authors(s'), s'.sent, s'.producers,
                      if s.producers[t].PIdle? then said[t := said[t] + [call]] else said)
  {
    var p, p' := s.producers[t], s'.producers[t];
    if p.PXchg? && p'.PLink? {
      AppendSpoken(Authors(s), s.sent, s.producers, said, t, p.v, p');
      assert Authors(s') == Authors(s) + [t];
    } else if p.PIdle? {
      HandSpoken(Authors(s), s.sent, s.producers, said, t, p', [call]);
    } else {
      HandSpoken(Authors(s), s.sent, s.producers, said, t, p', []);
      SaidNothing(said, t);
    }
  }

  lemma SaidNothing<T>(said: map<nat, seq<T>>, t: nat)
    requires t in said
    ensures said[t := said[t] + []] == said
  {
    assert said[t] + [] == said[t] && said[t := said[t]] == said;
  }

  lemma ThenKept<T>(l: Log<T>, c: Choice<T>)
    requires Kept(l)
    ensures Kept(Then(l, c))
  {
    if Fits(l.s, c) {
      NextKeeps(l.s, c);
      if c.Produce? {
        ProducerMoves(l.s, c.t, c.v, c.weak);
        ProducerThen(l.s, Next(l.s, c), c.t, c.v, l.said);
      } else {
        ConsumerServes(l.s, l.had, c.weak);
      }
    }
  }

  /** The run `cs` from a new queue on, with what it tells about the calls. */
  ghost function Logged<T>(threads: set<nat>, cs: seq<Choice<T>>): (l: Log<T>)
    ensures l.s == Run(threads, cs) && Kept(l)
  {
    StartInv<T>(threads);
    if cs == [] then Log(Start(threads), map t | t in threads :: [], 0)
    else
      var l := Logged(threads, cs[..|cs| - 1]);
      ThenKept(l, cs[|cs| - 1]);
      Then(l, cs[|cs| - 1])
  }

  /**
    In every interleaving the items that a thread has appended are, in order, the values it has
    called `enqueue` with, each of them once; only the value of a call that has not reached its
    exchange of `tail` is missing. A thread whose call has returned misses none.
  */
  lemma EveryValueIsAppended<T>(threads: set<nat>, cs: seq<Choice<T>>, t: nat)
    requires t in Run<T>(threads, cs).producers
    ensures var l := Logged(threads, cs);
      && t in l.said
      && l.said[t] == By(Authors(l.s), l.s.sent, t) + InHand(l.s.producers[t])
      && (l.s.producers[t].PIdle? ==> l.said[t] == By(Authors(l.s), l.s.sent, t))
  {
    var l := Logged(threads, cs);
    assert Spoken(Authors(l.s), l.s.sent, l.s.producers[t], t, l.said[t]);
  }

  /**
    In every interleaving a call of `try_dequeue` returns true with exactly one item more than had
    been taken when it began, or false with none, and only at its test of `next`: see
    `LinkedQueueRuns.RefusalMeansEmptyOrUnlinked`. It ends in no other way.
  */
  lemma EveryCallReturns<T>(threads: set<nat>, cs: seq<Choice<T>>, weak: bool)
    ensures var l := Logged(threads, cs);
      && Safe(l.s, Consume(weak))
      && (!l.s.consumer.CIdle? ==> Returns(l.s, Next(l.s, Consume(weak)), l.had, Answer(l.s, weak)))
      && (Answer(l.s, weak) == Some(false) <==> Refuses(l.s))
  {
    var l := Logged(threads, cs);
    InvIsSafe(l.s, Consume(weak));
    ConsumerServes(l.s, l.had, weak);
    RefusalIsAnswered(l.s, weak);
  }

  lemma RefusalIsAnswered<T>(s: Queue<T>, weak: bool)
    requires Inv(s) && Safe(s, Consume(weak))
    ensures Answer(s, weak) == Some(false) <==> Refuses(s)
  {
  }

  // ----------------------------------------------------- calls that run alone

  /** What the consumer is about to compare has not changed since it was read; the node behind a blank one is full. */
  ghost predicate Fresh<T>(s: Queue<T>) {
    match s.consumer
    case CFree(_, found) => !found ==> !s.consumed
    case CStore(_, top, found) => top == s.top && (!found ==> !s.consumed)
    case CPush(_, top, found) => top == s.top && (!found ==> !s.consumed)
    case _ => true
  }

  /** How many steps the consumer has before it at most, if nobody interferes. */
  function StepsLeft<T>(s: Queue<T>): nat {
    var again := 7;
    match s.consumer
    case CIdle => 0
    case CHead => if s.consumed then 6 + again else 7
    case CNext(_, consumed) => if consumed then 5 + again else 6
    case CTake(_) => 2
    case COwn(_) => 1
    case CMove(_, consumed, _) => if consumed then 4 + again else 5
    case CGrab(_) => 4
    case CFree(_, found) => 3 + if found then 0 else again
    case CStore(_, _, found) => 2 + if found then 0 else again
    case CPush(_, _, found) => 1 + if found then 0 else again
  }

  /** Alone, the consumer never takes a step in vain. */
  lemma NearerAlone<T>(s: Queue<T>)
    requires Inv(s) && Fresh(s) && !s.consumer.CIdle?
    ensures Safe(s, Consume(false))
    ensures var s' := ConsumerStep(s, false); Fresh(s') && StepsLeft(s') < StepsLeft(s)
  {
    InvIsSafe(s, Consume(false));
  }

  /** `head` holds an item, or leads to a node that does. */
  ghost predicate CanTake<T>(s: Queue<T>)
    requires Shape(s)
  {
    !s.consumed || (s.head.node in s.next && s.next[s.head.node].Some?)
  }

  /** Between two calls: nothing can be taken exactly if the queue is empty or its next node is not linked yet. */
  lemma CanTakeMeaning<T>(s: Queue<T>)
    requires Inv(s) && s.consumer.CIdle?
    ensures CanTake(s) <==> s.outs != s.sent && !Unlinked(s, |s.outs| + 1)
  {
    assert ChainAt(s, s.front);
    if Unlinked(s, |s.outs| + 1) {
      assert ProducerAt(s, s.owner[|s.outs| + 1]);
    }
  }

  /** A call in progress, alone, that is going to take one item, or none. */
  ghost predicate Trying<T>(s: Queue<T>, had: nat, found: bool)
    requires Shape(s)
  {
    && ConsumerHas(s, had) && Fresh(s)
    && match s.consumer
       case CIdle => |s.outs| == had + if found then 1 else 0
       case CHead => CanTake(s) == found
       case CNext(_, _) => CanTake(s) == found
       case _ => found
  }

  lemma TryingNext<T>(s: Queue<T>, had: nat, found: bool)
    requires Inv(s) && Trying(s, had, found) && !s.consumer.CIdle? && Safe(s, Consume(false))
    requires Inv(ConsumerStep(s, false))
    ensures Trying(ConsumerStep(s, false), had, found)
  {
    ConsumerServes(s, had, false);
    NearerAlone(s);
    assert ChainAt(s, s.front);
  }

  /** The consumer alone, for `k` steps. */
  ghost function ConsumerAlone<T>(s: Queue<T>, k: nat): (s': Queue<T>)
    requires Inv(s)
    ensures Inv(s')
    decreases k
  {
    if k == 0 then s
    else
      InvIsSafe(s, Consume(false));
      ConsumerKeeps(s, false);
      ConsumerAlone(ConsumerStep(s, false), k - 1)
  }

  lemma {:induction false} FinishTrying<T>(s: Queue<T>, had: nat, found: bool) returns (k: nat)
    requires Inv(s) && Trying(s, had, found)
    ensures k <= StepsLeft(s)
    ensures var s' := ConsumerAlone(s, k); s'.consumer.CIdle? && Trying(s', had, found) && s'.sent == s.sent
    decreases StepsLeft(s)
  {
    if s.consumer.CIdle? {
      k := 0;
    } else {
      InvIsSafe(s, Consume(false));
      ConsumerKeeps(s, false);
      NearerAlone(s);
      TryingNext(s, had, found);
      ConsumerServes(s, had, false);
      k := FinishTrying(ConsumerStep(s, false), had, found);
      k := k + 1;
    }
  }

  lemma TryingBegins<T>(s: Queue<T>)
    requires Inv(s) && s.consumer.CIdle?
    ensures var s' := ConsumerStep(s, false);
      Shape(s') && Trying(s', |s.outs|, CanTake(s)) && StepsLeft(s') <= 13 && s'.sent == s.sent
  {
  }

  /**
    From any reachable state, a `try_dequeue` that runs alone returns within 14 steps. It takes the
    next item if there is one and it is linked, and otherwise nothing.
  */
  lemma DequeueAlone<T>(threads: set<nat>, cs: seq<Choice<T>>) returns (k: nat)
    requires Run<T>(threads, cs).consumer.CIdle?
    ensures 0 < k <= 14
    ensures var s := Run<T>(threads, cs); var s' := ConsumerAlone(s, k);
      && s'.consumer.CIdle? && s'.sent == s.sent && |s.outs| <= |s.sent|
      && s'.outs == if s.outs != s.sent && !Unlinked(s, |s.outs| + 1) then s.sent[..|s.outs| + 1] else s.outs
  {
    var s := Run<T>(threads, cs);
    CanTakeMeaning(s);
    TryingBegins(s);
    InvIsSafe(s, Consume(false));
    ConsumerKeeps(s, false);
    k := FinishTrying(ConsumerStep(s, false), |s.outs|, CanTake(s));
    OutsAre(ConsumerAlone(ConsumerStep(s, false), k));
    OutsAre(s);
    k := k + 1;
  }

  lemma OutsAre<T>(s: Queue<T>)
    requires Inv(s)
    ensures |s.outs| <= |s.sent| && s.outs == s.sent[..|s.outs|]
  {
  }

  // --------------------------------------------------------- the same for enqueue

  ghost predicate FreshP<T>(s: Queue<T>, t: nat)
    requires t in s.producers
  {
    match s.producers[t]
    case PFree(_, top) => top == s.top
    case PPop(_, h, _) => s.top == Some(h)
    case PXchg(_, _, seen) => seen == s.tail
    case _ => true
  }

  function StepsLeftP<T>(p: Producer<T>): nat {
    match p
    case PIdle => 0
    case PAlloc(_) => 7
    case PFree(_, _) => 6
    case PPop(_, _, _) => 5
    case PInit(_, _) => 4
    case PTail(_, _) => 3
    case PXchg(_, _, _) => 2
    case PLink(_, _, _) => 1
  }

  /** A call of `enqueue` in progress, alone, that began when `sent` had been appended. */
  ghost predicate Enqueuing<T>(s: Queue<T>, t: nat, sent: seq<T>, v: T) {
    && t in s.producers && FreshP(s, t)
    && if Carries(s.producers[t]).Some? then s.sent == sent && Carries(s.producers[t]) == Some(v)
       else s.sent == sent + [v]
  }

  lemma EnqueuingNext<T>(s: Queue<T>, t: nat, sent: seq<T>, v: T)
    requires Enqueuing(s, t, sent, v) && !s.producers[t].PIdle? && Safe(s, Produce(t, v, false))
    ensures var s' := ProducerStep(s, t, v, false);
      Enqueuing(s', t, sent, v) && StepsLeftP(s'.producers[t]) < StepsLeftP(s.producers[t]) && s'.outs == s.outs
  {
    ProducerMoves(s, t, v, false);
  }

  ghost function ProducerAlone<T>(s: Queue<T>, t: nat, v: T, k: nat): (s': Queue<T>)
    requires Inv(s) && t in s.producers
    ensures Inv(s') && t in s'.producers
    decreases k
  {
    if k == 0 then s
    else
      InvIsSafe(s, Produce(t, v, false));
      ProducerKeeps(s, t, v, false);
      ProducerMoves(s, t, v, false);
      ProducerAlone(ProducerStep(s, t, v, false), t, v, k - 1)
  }

  lemma {:induction false} FinishEnqueue<T>(s: Queue<T>, t: nat, sent: seq<T>, v: T) returns (k: nat)
    requires Inv(s) && Enqueuing(s, t, sent, v)
    ensures k <= StepsLeftP(s.producers[t])
    ensures var s' := ProducerAlone(s, t, v, k); s'.producers[t].PIdle? && s'.sent == sent + [v] && s'.outs == s.outs
    decreases StepsLeftP(s.producers[t])
  {
    if s.producers[t].PIdle? {
      k := 0;
    } else {
      InvIsSafe(s, Produce(t, v, false));
      ProducerKeeps(s, t, v, false);
      EnqueuingNext(s, t, sent, v);
      k := FinishEnqueue(ProducerStep(s, t, v, false), t, sent, v);
      k := k + 1;
    }
  }

  /** From any reachable state, an `enqueue` that runs alone returns within 8 steps, with its value in the queue. */
  lemma EnqueueAlone<T>(threads: set<nat>, cs: seq<Choice<T>>, t: nat, v: T) returns (k: nat)
    requires t in Run<T>(threads, cs).producers && Run<T>(threads, cs).producers[t].PIdle?
    ensures 0 < k <= 8
    ensures var s := Run<T>(threads, cs); var s' := ProducerAlone(s, t, v, k);
      s'.producers[t].PIdle? && s'.sent == s.sent + [v] && s'.outs == s.outs
  {
    var s := Run<T>(threads, cs);
    InvIsSafe(s, Produce(t, v, false));
    ProducerKeeps(s, t, v, false);
    k := FinishEnqueue(ProducerStep(s, t, v, false), t, s.sent, v);
    k := k + 1;
  }
}
