/**
  What whole calls of the ring come to: every `enqueue` is refused or commits the value it was called
  with, once, and every `dequeue` is refused or takes one item.
*/
module ArrayQueueCalls {
  import opened Options
  import opened ArrayQueue
  import opened ArrayQueueRefusals
  import opened Shares

  /**
    What a thread has been told and given: `said` are the values it has called `enqueue` with, those
    of refused calls left out; `taken` are the items its calls of `dequeue` took, `had` how many of
    them before the latest call.
  */
  datatype Diary<T> = Diary(said: seq<T>, taken: seq<T>, had: nat)

  /** The value in the hands of a thread that has no ticket for it yet. */
  function InHand<T>(p: Phase<T>): seq<T> {
    match p
    case EnqLoadWrite(v) => [v]
    case EnqLoadRead(v, _) => [v]
    case EnqReserve(v, _, _) => [v]
    case _ => []
  }

  /** How many items a call of `dequeue` in progress has taken. */
  function TakenNow<T>(p: Phase<T>): Option<nat> {
    match p
    case DeqLoadRead => Some(0)
    case DeqLoadMax(_) => Some(0)
    case DeqCopy(_) => Some(0)
    case DeqClaim(_, _) => Some(0)
    case DeqCount => Some(1)
    case _ => None
  }

  ghost predicate Written<T>(owner: seq<nat>, vals: seq<T>, p: Phase<T>, t: nat, d: Diary<T>)
    requires |owner| == |vals|
  {
    && d.said == By(owner, vals, t) + InHand(p)
    && (TakenNow(p).Some? ==> |d.taken| == d.had + TakenNow(p).value)
  }

  ghost predicate AllWritten<T>(owner: seq<nat>, vals: seq<T>, ps: map<nat, Phase<T>>, ds: map<nat, Diary<T>>)
    requires |owner| == |vals|
  {
    ds.Keys == ps.Keys && forall t | t in ps :: Written(owner, vals, ps[t], t, ds[t])
  }

  /** The thread's next step answers that the ring is full, or empty. */
  predicate TestFails<T>(s: State<T>, t: nat)
    requires |s.slots| > 0 && t in s.threads
  {
    match s.threads[t]
    case EnqLoadRead(_, w) => Full(w, s.read, |s.slots|)
    case DeqLoadMax(r) => Empty(r, s.max, |s.slots|)
    case _ => false
  }

  /** What the thread's call returns if it returns with its next step. */
  function Answer<T>(s: State<T>, t: nat): Option<bool>
    requires |s.slots| > 0 && t in s.threads
  {
    if TestFails(s, t) then Some(false)
    else if s.threads[t].EnqCount? || s.threads[t].DeqCount? then Some(true)
    else None
  }

  /** The diary of the thread that takes the step from `s` to `s'`. */
  function Noted<T>(s: State<T>, s': State<T>, c: Choice<T>, d: Diary<T>): Diary<T>
    requires |s.slots| > 0 && c.tid in s.threads
  {
    var p := s.threads[c.tid];
    if p.Idle? && c.call.Enqueue? then d.(said := d.said + [c.call.v])
    else if p.Idle? then d.(had := |d.taken|)
    else if p.EnqLoadRead? && TestFails(s, c.tid) && d.said != [] then d.(said := d.said[..|d.said| - 1])
    else if |s'.outs| > |s.outs| then d.(taken := d.taken + [s'.outs[|s'.outs| - 1]])
    else d
  }

  /** What a step is to the tickets, the results, and the other threads. */
  ghost predicate Moves<T>(s: State<T>, s': State<T>, c: Choice<T>, d: Diary<T>)
    requires |s.slots| > 0 && |s.owner| == |s.vals| && c.tid in s.threads
  {
    var t := c.tid;
    && t in s'.threads && s'.threads == s.threads[t := s'.threads[t]]
    && (if s.threads[t].EnqReserve? && s'.threads[t].EnqStore?
        then s'.vals == s.vals + [s.threads[t].v] && s'.owner == s.owner + [t]
        else s'.vals == s.vals && s'.owner == s.owner)
    && (Written(s.owner, s.vals, s.threads[t], t, d) ==>
          Written(s'.owner, s'.vals, s'.threads[t], t, Noted(s, s', c, d)))
  }

  /**
    The call returns with this step exactly if the thread is idle after it. A `dequeue` that returns
    true has taken one item, and any other call none.
  */
  ghost predicate Returns<T>(s: State<T>, s': State<T>, t: nat, d: Diary<T>)
    requires |s.slots| > 0 && t in s.threads && t in s'.threads
  {
    match Answer(s, t)
    case None => !s'.threads[t].Idle?
    case Some(done) =>
      && s'.threads[t].Idle?
      && (TakenNow(s.threads[t]).Some? ==> |d.taken| == d.had + if done then 1 else 0)
  }

  lemma EnqueueMoves<T>(s: State<T>, c: Choice<T>, d: Diary<T>)
    requires |s.slots| > 0 && |s.owner| == |s.vals| && c.tid in s.threads && Enqueuing(s.threads[c.tid])
    ensures Moves(s, Next(s, c), c, d)
  {
    if s.threads[c.tid].EnqReserve? {
      ReserveMoves(s, c, d);
    } else if s.threads[c.tid].EnqLoadRead? {
      TestMoves(s, c, d);
    } else {
      CommitMoves(s, c, d);
    }
  }

  lemma ReserveMoves<T>(s: State<T>, c: Choice<T>, d: Diary<T>)
    requires |s.slots| > 0 && |s.owner| == |s.vals| && c.tid in s.threads && s.threads[c.tid].EnqReserve?
    ensures Moves(s, Next(s, c), c, d)
  {
    ByOneMore(s.owner, s.vals, c.tid, s.threads[c.tid].v, c.tid);
  }

  lemma TestMoves<T>(s: State<T>, c: Choice<T>, d: Diary<T>)
    requires |s.slots| > 0 && |s.owner| == |s.vals| && c.tid in s.threads && s.threads[c.tid].EnqLoadRead?
    ensures Moves(s, Next(s, c), c, d)
  {
  }

  lemma CommitMoves<T>(s: State<T>, c: Choice<T>, d: Diary<T>)
    requires |s.slots| > 0 && |s.owner| == |s.vals| && c.tid in s.threads && Enqueuing(s.threads[c.tid])
    requires !s.threads[c.tid].EnqReserve? && !s.threads[c.tid].EnqLoadRead?
    ensures Moves(s, Next(s, c), c, d)
  {
  }

  lemma DequeueMoves<T>(s: State<T>, c: Choice<T>, d: Diary<T>)
    requires |s.slots| > 0 && |s.owner| == |s.vals| && c.tid in s.threads && !Enqueuing(s.threads[c.tid])
    ensures Moves(s, Next(s, c), c, d)
  {
  }

  lemma StepReturns<T>(s: State<T>, c: Choice<T>, d: Diary<T>)
    requires |s.slots| > 0 && |s.owner| == |s.vals| && c.tid in s.threads && !s.threads[c.tid].Idle?
    requires Written(s.owner, s.vals, s.threads[c.tid], c.tid, d)
    ensures c.tid in Next(s, c).threads && Returns(s, Next(s, c), c.tid, d)
    ensures Answer(s, c.tid) == Some(false) <==> Refuses(s, c.tid)
  {
  }

  // --------------------------------------------------------------------- runs

  lemma AllStillWritten<T>(s: State<T>, s': State<T>, c: Choice<T>, ds: map<nat, Diary<T>>)
    requires |s.slots| > 0 && |s.owner| == |s.vals| && c.tid in s.threads
    requires AllWritten(s.owner, s.vals, s.threads, ds) && Moves(s, s', c, ds[c.tid])
    ensures AllWritten(s'.owner, s'.vals, s'.threads, ds[c.tid := Noted(s, s', c, ds[c.tid])])
  {
    var t := c.tid;
    forall u | u in s'.threads
      ensures Written(s'.owner, s'.vals, s'.threads[u], u, ds[t := Noted(s, s', c, ds[t])][u])
    {
      assert Written(s.owner, s.vals, s.threads[u], u, ds[u]);
      if u != t && s.threads[t].EnqReserve? { ByOneMore(s.owner, s.vals, t, s.threads[t].v, u); }
    }
  }

  /** What a run from `s` on writes into the diaries of its threads. */
  ghost function Diaries<T>(s: State<T>, cs: seq<Choice<T>>): (ds: map<nat, Diary<T>>)
    requires Start(s) && Schedulable(s, cs)
    ensures var s' := After(s, cs); |s'.owner| == |s'.vals| && AllWritten(s'.owner, s'.vals, s'.threads, ds)
  {
    AfterInv(s, cs);
    if cs == [] then map t | t in s.threads :: Diary([], [], 0)
    else
      var before, c := cs[..|cs| - 1], cs[|cs| - 1];
      var ds, s1 := Diaries(s, before), After(s, before);
      StepMoves(s1, c, ds[c.tid]);
      AllStillWritten(s1, Next(s1, c), c, ds);
      ds[c.tid := Noted(s1, Next(s1, c), c, ds[c.tid])]
  }

  lemma StepMoves<T>(s: State<T>, c: Choice<T>, d: Diary<T>)
    requires |s.slots| > 0 && |s.owner| == |s.vals| && c.tid in s.threads
    ensures Moves(s, Next(s, c), c, d)
  {
    if Enqueuing(s.threads[c.tid]) { EnqueueMoves(s, c, d); } else { DequeueMoves(s, c, d); }
  }

  /**
    In every interleaving the values of a thread's tickets are, in order, the values it has called
    `enqueue` with, each of them once, without those of calls that were told the ring is full; only a
    value still in its hands is missing. Between two calls none is missing, and all its tickets are
    committed.
  */
  lemma EveryValueHasATicket<T>(s: State<T>, cs: seq<Choice<T>>, t: nat)
    requires Start(s) && Schedulable(s, cs) && t in s.threads
    ensures var s', ds := After(s, cs), Diaries(s, cs);
      && t in ds && t in s'.threads && |s'.owner| == |s'.vals|
      && ds[t].said == By(s'.owner, s'.vals, t) + InHand(s'.threads[t])
      && (s'.threads[t].Idle? ==>
            && ds[t].said == By(s'.owner, s'.vals, t)
            && forall i | s'.max <= i < |s'.owner| :: s'.owner[i] != t)
  {
    var s', ds := After(s, cs), Diaries(s, cs);
    AfterInv(s, cs);
    assert Written(s'.owner, s'.vals, s'.threads[t], t, ds[t]);
    forall i | s'.max <= i < |s'.owner| && s'.threads[t].Idle?
      ensures s'.owner[i] != t
    {
      assert Holds(s'.threads[s'.owner[i]], i);
    }
  }

  /**
    In every interleaving a call ends in no other way than with an answer: false at the test for a
    full or an empty ring; or true, and then a `dequeue` has taken exactly one item since it began.
  */
  lemma EveryCallReturns<T>(s: State<T>, cs: seq<Choice<T>>, c: Choice<T>)
    requires Start(s) && Schedulable(s, cs) && c.tid in s.threads && !After(s, cs).threads[c.tid].Idle?
    ensures var s', ds := After(s, cs), Diaries(s, cs);
      && c.tid in ds && c.tid in Next(s', c).threads && Returns(s', Next(s', c), c.tid, ds[c.tid])
      && (Answer(s', c.tid) == Some(false) <==> Refuses(s', c.tid))
  {
    var s', ds := After(s, cs), Diaries(s, cs);
    assert Written(s'.owner, s'.vals, s'.threads[c.tid], c.tid, ds[c.tid]);
    StepReturns(s', c, ds[c.tid]);
  }

  // ----------------------------------------------------- calls that run alone

  /** Thread `t` alone, for `k` steps. */
  ghost function Alone<T>(s: State<T>, c: Choice<T>, k: nat): State<T>
    requires |s.slots| > 0 && c.tid in s.threads
    decreases k
  {
    if k == 0 then s else Alone(Next(s, c), c, k - 1)
  }

  /** Nobody is inside a call. */
  ghost predicate Quiet<T>(s: State<T>) {
    forall t | t in s.threads :: s.threads[t].Idle?
  }

  lemma QuietMeansCommitted<T>(s: State<T>)
    requires Inv(s) && Quiet(s)
    ensures s.max == s.write
  {
    if s.max < s.write { TicketHeld(s, s.max); }
  }

  lemma TicketHeld<T>(s: State<T>, i: nat)
    requires Inv(s) && s.max <= i < s.write
    ensures s.owner[i] in s.threads && !s.threads[s.owner[i]].Idle?
  {
    assert Holds(s.threads[s.owner[i]], i);
  }

  lemma Hop<T>(s: State<T>, c: Choice<T>, s': State<T>, k: nat)
    requires |s.slots| > 0 && c.tid in s.threads && c.tid in s'.threads && Next(s, c) == s' && |s'.slots| > 0
    ensures Alone(s, c, k + 1) == Alone(s', c, k)
  {
  }

  /** The two loads of `enqueue`, and its test. */
  lemma EnqueueLooks<T>(s: State<T>, t: nat, v: T, k: nat)
    requires |s.slots| > 0 && t in s.threads && s.threads[t].Idle?
    ensures var c := Choice(t, Enqueue(v));
      Alone(s, c, 3 + k) ==
        Alone(if Full(s.write, s.read, |s.slots|) then s else Set(s, t, EnqReserve(v, s.write, s.read)), c, k)
  {
    var c, w := Choice(t, Enqueue(v)), s.write;
    Hop(s, c, Set(s, t, EnqLoadWrite(v)), 2 + k);
    SetTwice(s, t, EnqLoadWrite(v), EnqLoadRead(v, w));
    Hop(Set(s, t, EnqLoadWrite(v)), c, Set(s, t, EnqLoadRead(v, w)), 1 + k);
    SetTwice(s, t, EnqLoadRead(v, w), Idle);
    SetTwice(s, t, EnqLoadRead(v, w), EnqReserve(v, w, s.read));
    var tested := if Full(w, s.read, |s.slots|) then s else Set(s, t, EnqReserve(v, w, s.read));
    Hop(Set(s, t, EnqLoadRead(v, w)), c, tested, k);
  }

  /** From its ticket to the end. */
  lemma EnqueueEnds<T>(s: State<T>, t: nat, v: T)
    requires |s.slots| > 0 && t in s.threads && s.threads[t].Idle? && s.max == s.write
    ensures var c := Choice(t, Enqueue(v)); Alone(Set(s, t, EnqReserve(v, s.write, s.read)), c, 4) == Enqueued(s, t, v)
  {
    var c, w := Choice(t, Enqueue(v)), s.write;
    var r := s.(write := w + 1, vals := s.vals + [v], owner := s.owner + [t]);
    var u := r.(slots := s.slots[ToIndex(w, |s.slots|) := v]);
    SetTwice(s, t, EnqReserve(v, w, s.read), EnqStore(v, w));
    Hop(Set(s, t, EnqReserve(v, w, s.read)), c, Set(r, t, EnqStore(v, w)), 3);
    SetTwice(r, t, EnqStore(v, w), EnqCommit(v, w));
    Hop(Set(r, t, EnqStore(v, w)), c, Set(u, t, EnqCommit(v, w)), 2);
    SetTwice(u, t, EnqCommit(v, w), EnqCount);
    Hop(Set(u, t, EnqCommit(v, w)), c, Set(u.(max := w + 1), t, EnqCount), 1);
    SetTwice(u.(max := w + 1), t, EnqCount, Idle);
    Hop(Set(u.(max := w + 1), t, EnqCount), c, Enqueued(s, t, v), 0);
  }

  /**
    When nobody else is inside a call, `enqueue` returns after seven steps with its value behind all
    others, or after three steps having changed nothing if the ring holds one item less than it has
    slots.
  */
  lemma EnqueueAlone<T>(s: State<T>, cs: seq<Choice<T>>, t: nat, v: T)
    requires Start(s) && Schedulable(s, cs) && t in s.threads && Quiet(After(s, cs))
    ensures var s', c := After(s, cs), Choice(t, Enqueue(v));
      if s'.write - s'.read == |s.slots| - 1 then Alone(s', c, 3) == s' else Alone(s', c, 7) == Enqueued(s', t, v)
  {
    var s' := After(s, cs);
    AfterInv(s, cs);
    QuietMeansCommitted(s');
    FullMeansFull(s'.write, s'.read, |s'.slots|);
    if s'.write - s'.read == |s.slots| - 1 {
      EnqueueLooks(s', t, v, 0);
    } else {
      EnqueueLooks(s', t, v, 4);
      EnqueueEnds(s', t, v);
    }
  }

  /** The two loads of `dequeue`, and its test. */
  lemma DequeueTests<T>(s: State<T>, t: nat, k: nat)
    requires |s.slots| > 0 && t in s.threads && s.threads[t].Idle?
    ensures var c := Choice(t, Dequeue);
      Alone(s, c, 3 + k) == Alone(if Empty(s.read, s.max, |s.slots|) then s else Set(s, t, DeqCopy(s.read)), c, k)
  {
    var c: Choice<T>, r := Choice(t, Dequeue), s.read;
    Hop(s, c, Set(s, t, DeqLoadRead), 2 + k);
    SetTwice(s, t, DeqLoadRead, DeqLoadMax(r));
    Hop(Set(s, t, DeqLoadRead), c, Set(s, t, DeqLoadMax(r)), 1 + k);
    SetTwice(s, t, DeqLoadMax(r), Idle);
    SetTwice(s, t, DeqLoadMax(r), DeqCopy(r));
    Hop(Set(s, t, DeqLoadMax(r)), c, if Empty(r, s.max, |s.slots|) then s else Set(s, t, DeqCopy(r)), k);
  }

  lemma DequeueEnds<T>(s: State<T>, t: nat)
    requires |s.slots| > 0 && t in s.threads && s.threads[t].Idle?
    ensures var c := Choice(t, Dequeue); Alone(Set(s, t, DeqCopy(s.read)), c, 3) == Dequeued(s)
  {
    var c: Choice<T>, r := Choice(t, Dequeue), s.read;
    var x := s.slots[ToIndex(r, |s.slots|)];
    var u := s.(read := r + 1, outs := s.outs + [x]);
    SetTwice(s, t, DeqCopy(r), DeqClaim(r, x));
    Hop(Set(s, t, DeqCopy(r)), c, Set(s, t, DeqClaim(r, x)), 2);
    SetTwice(s, t, DeqClaim(r, x), DeqCount);
    Hop(Set(s, t, DeqClaim(r, x)), c, Set(u, t, DeqCount), 1);
    SetTwice(u, t, DeqCount, Idle);
    Hop(Set(u, t, DeqCount), c, Dequeued(s), 0);
  }

  /**
    When nobody else is inside a call, `dequeue` returns after six steps with the oldest item, or
    after three steps having changed nothing if there is none.
  */
  lemma DequeueAlone<T>(s: State<T>, cs: seq<Choice<T>>, t: nat)
    requires Start(s) && Schedulable(s, cs) && t in s.threads && Quiet(After(s, cs))
    ensures var s', c := After(s, cs), Choice(t, Dequeue);
      && (s'.outs == s'.vals ==> Alone(s', c, 3) == s')
      && (s'.outs != s'.vals ==>
            && |s'.outs| < |s'.vals| && Alone(s', c, 6) == Dequeued(s')
            && Dequeued(s').outs == s'.vals[..|s'.outs| + 1])
  {
    var s' := After(s, cs);
    AfterInv(s, cs);
    OldestItem(s');
    if s'.outs == s'.vals {
      DequeueTests(s', t, 0);
    } else {
      DequeueTests(s', t, 3);
      DequeueEnds(s', t);
    }
  }

  /** What a quiet ring hands out next. */
  lemma OldestItem<T>(s: State<T>)
    requires Inv(s) && Quiet(s)
    ensures |s.slots| > 0 && (Empty(s.read, s.max, |s.slots|) <==> s.outs == s.vals)
    ensures s.outs != s.vals ==> |s.outs| < |s.vals| && Dequeued(s).outs == s.vals[..|s.outs| + 1]
  {
    QuietMeansCommitted(s);
    EmptyMeansEmpty(s.read, s.max, |s.slots|);
  }
}
