/**
  The lock-free ring of ArrayLockFreeQueueImp.h, as any number of threads that take one step at a
  time. A step is one access to shared memory: a load, a store into a slot, or an atomic update.
  The indices are unbounded.
*/
module ArrayQueue {
  import opened Arithmetic

  /** Where a thread is. The parameters are its local variables. */
  datatype Phase<T> =
    | Idle
    | EnqLoadWrite(v: T)
    | EnqLoadRead(v: T, w: nat)
    | EnqReserve(v: T, w: nat, r: nat)
    | EnqStore(v: T, w: nat)
    | EnqCommit(v: T, w: nat)
    | EnqCount
    | DeqLoadRead
    | DeqLoadMax(r: nat)
    | DeqCopy(r: nat)
    | DeqClaim(r: nat, x: T)
    | DeqCount

  /**
    Shared memory and threads. The last three components only observe: `vals` are the values in
    the order of their tickets, `owner` who reserved each ticket, `outs` what was dequeued so far.
  */
  datatype State<T> = State(
    slots: seq<T>, write: nat, read: nat, max: nat, count: int, threads: map<nat, Phase<T>>,
    vals: seq<T>, owner: seq<nat>, outs: seq<T>)

  /** What an idle thread calls next. */
  datatype Call<T> = Enqueue(v: T) | Dequeue

  /** The scheduler picks a thread, and the call it makes if it is idle. */
  datatype Choice<T> = Choice(tid: nat, call: Call<T>)

  function ToIndex(count: nat, q: nat): nat
    requires q > 0
  {
    count % q
  }

  ghost predicate Start<T>(s: State<T>) {
    && |s.slots| > 0 && s.write == s.read == s.max == 0 && s.count == 0
    && s.vals == [] && s.owner == [] && s.outs == []
    && forall t | t in s.threads :: s.threads[t] == Idle
  }

  function Set<T>(s: State<T>, t: nat, p: Phase<T>): State<T> {
    s.(threads := s.threads[t := p])
  }

  /** One step of thread `c.tid`. */
  function Next<T>(s: State<T>, c: Choice<T>): State<T>
    requires |s.slots| > 0 && c.tid in s.threads
  {
    var t, q := c.tid, |s.slots|;
    match s.threads[t]
    case Idle => Set(s, t, match c.call case Enqueue(v) => EnqLoadWrite(v) case Dequeue => DeqLoadRead)
    case EnqLoadWrite(v) => Set(s, t, EnqLoadRead(v, s.write))
    case EnqLoadRead(v, w) =>
      if Full(w, s.read, q) then Set(s, t, Idle) else Set(s, t, EnqReserve(v, w, s.read))
    case EnqReserve(v, w, _) =>
      if s.write == w then
        Set(s, t, EnqStore(v, w)).(write := w + 1, vals := s.vals + [v], owner := s.owner + [t])
      else Set(s, t, EnqLoadWrite(v))
    case EnqStore(v, w) =>
      Set(s, t, EnqCommit(v, w)).(slots := s.slots[ToIndex(w, q) := v])
    case EnqCommit(v, w) =>
      if s.max == w then Set(s, t, EnqCount).(max := w + 1) else s
    case EnqCount => Set(s, t, Idle).(count := s.count + 1)
    case DeqLoadRead => Set(s, t, DeqLoadMax(s.read))
    case DeqLoadMax(r) =>
      if Empty(r, s.max, q) then Set(s, t, Idle) else Set(s, t, DeqCopy(r))
    case DeqCopy(r) => Set(s, t, DeqClaim(r, s.slots[ToIndex(r, q)]))
    case DeqClaim(r, x) =>
      if s.read == r then Set(s, t, DeqCount).(read := r + 1, outs := s.outs + [x])
      else Set(s, t, DeqLoadRead)
    case DeqCount => Set(s, t, Idle).(count := s.count - 1)
  }

  predicate Full(w: nat, r: nat, q: nat)
    requires q > 0
  {
    ToIndex(w + 1, q) == ToIndex(r, q)
  }

  predicate Empty(r: nat, m: nat, q: nat)
    requires q > 0
  {
    ToIndex(r, q) == ToIndex(m, q)
  }

  // -------------------------------------------------------------- invariants

  /** A thread holds ticket `w` and has not committed it yet. */
  predicate Holds<T>(p: Phase<T>, w: nat) {
    (p.EnqStore? || p.EnqCommit?) && p.w == w
  }

  ghost predicate Indices<T>(s: State<T>) {
    && |s.slots| > 0
    && s.read <= s.max <= s.write <= s.read + |s.slots| - 1
    && |s.vals| == |s.owner| == s.write && s.outs == s.vals[..s.read]
  }

  /** What thread `t` may rely on, however stale its local copies are. */
  ghost predicate ThreadOk<T>(s: State<T>, t: nat)
    requires Indices(s) && t in s.threads
  {
    var q := |s.slots|;
    match s.threads[t]
    case EnqLoadRead(_, w) => w <= s.write
    case EnqReserve(_, w, r) => w <= s.write && (w == s.write ==> w + 1 - s.read <= q - 1)
    case EnqStore(v, w) => s.max <= w < s.write && s.vals[w] == v && s.owner[w] == t
    case EnqCommit(v, w) =>
      s.max <= w < s.write && s.vals[w] == v && s.owner[w] == t && s.slots[ToIndex(w, q)] == v
    case DeqLoadMax(r) => r <= s.read
    case DeqCopy(r) => r <= s.read && (r == s.read ==> r < s.max)
    case DeqClaim(r, x) => r <= s.read && (r == s.read ==> r < s.max && x == s.vals[r])
    case _ => true
  }

  ghost predicate Inv<T>(s: State<T>) {
    && Indices(s)
    && (forall t | t in s.threads :: ThreadOk(s, t))
    && (forall i | s.read <= i < s.max :: s.slots[ToIndex(i, |s.slots|)] == s.vals[i])
    && (forall i | s.max <= i < s.write :: s.owner[i] in s.threads && Holds(s.threads[s.owner[i]], i))
  }

  /** Two tickets less than a ring apart use different slots. */
  lemma DifferentSlots(i: nat, j: nat, q: nat)
    requires q > 0 && i < j < i + q
    ensures ToIndex(i, q) != ToIndex(j, q)
  {
    var d := j / q - i / q;
    Multiple(q, d);
    assert j == q * (j / q) + j % q && i == q * (i / q) + i % q;
    assert q * (j / q) - q * (i / q) == q * d;
  }

  /** A ticket uses the same slot again one ring later. */
  lemma SameSlot(i: nat, q: nat)
    requires q > 0
    ensures ToIndex(i + q, q) == ToIndex(i, q)
  {
    var d := (i + q) / q - i / q;
    assert i + q == q * ((i + q) / q) + (i + q) % q && i == q * (i / q) + i % q;
    assert q * ((i + q) / q) - q * (i / q) == q * d;
    Multiple(q, d - 1);
    Multiple(q, d);
    Multiple(q, 2 - d);
    assert q * (d - 1) == q * d - q && q * (2 - d) == 2 * q - q * d;
    assert d == 1;
  }

  lemma FullMeansFull(w: nat, r: nat, q: nat)
    requires q > 0 && r <= w <= r + q - 1
    ensures Full(w, r, q) <==> w == r + q - 1
  {
    if w < r + q - 1 {
      DifferentSlots(r, w + 1, q);
    } else {
      SameSlot(r, q);
    }
  }

  lemma EmptyMeansEmpty(r: nat, m: nat, q: nat)
    requires q > 0 && r <= m <= r + q - 1
    ensures Empty(r, m, q) <==> r == m
  {
    if r < m {
      DifferentSlots(r, m, q);
    }
  }

  lemma StartInv<T>(s: State<T>)
    requires Start(s)
    ensures Inv(s)
  {
  }

  /** Steps that only change the phase of one thread. */
  lemma LocalStep<T>(s: State<T>, t: nat, p: Phase<T>)
    requires Inv(s) && t in s.threads
    requires !s.threads[t].EnqStore? && !s.threads[t].EnqCommit?
    requires ThreadOk(Set(s, t, p), t)
    ensures Inv(Set(s, t, p))
  {
    var s' := Set(s, t, p);
    forall u | u in s'.threads
      ensures ThreadOk(s', u)
    {
      if u != t {
        assert ThreadOk(s, u);
      }
    }
  }

  lemma ReserveStep<T>(s: State<T>, c: Choice<T>)
    requires Inv(s) && c.tid in s.threads && s.threads[c.tid].EnqReserve? && s.threads[c.tid].w == s.write
    ensures Inv(Next(s, c))
  {
    var s' := Next(s, c);
    assert ThreadOk(s, c.tid);
    forall u | u in s'.threads
      ensures ThreadOk(s', u)
    {
      if u != c.tid {
        assert ThreadOk(s, u);
      }
    }
  }

  lemma StoreStep<T>(s: State<T>, c: Choice<T>)
    requires Inv(s) && c.tid in s.threads && s.threads[c.tid].EnqStore?
    ensures Inv(Next(s, c))
  {
    var s', q, w := Next(s, c), |s.slots|, s.threads[c.tid].w;
    assert ThreadOk(s, c.tid);
    forall i | s.read <= i < s.write && i != w
      ensures s'.slots[ToIndex(i, q)] == s.slots[ToIndex(i, q)]
    {
      if i < w { DifferentSlots(i, w, q); } else { DifferentSlots(w, i, q); }
    }
    forall u | u in s'.threads
      ensures ThreadOk(s', u)
    {
      if u != c.tid {
        assert ThreadOk(s, u);
      }
    }
  }

  lemma CommitStep<T>(s: State<T>, c: Choice<T>)
    requires Inv(s) && c.tid in s.threads && s.threads[c.tid].EnqCommit? && s.threads[c.tid].w == s.max
    ensures Inv(Next(s, c))
  {
    var s' := Next(s, c);
    assert ThreadOk(s, c.tid);
    forall u | u in s'.threads
      ensures ThreadOk(s', u)
    {
      if u != c.tid {
        assert ThreadOk(s, u);
      }
    }
  }

  lemma ClaimStep<T>(s: State<T>, c: Choice<T>)
    requires Inv(s) && c.tid in s.threads && s.threads[c.tid].DeqClaim? && s.threads[c.tid].r == s.read
    ensures Inv(Next(s, c))
  {
    var s' := Next(s, c);
    assert ThreadOk(s, c.tid);
    forall u | u in s'.threads
      ensures ThreadOk(s', u)
    {
      if u != c.tid {
        assert ThreadOk(s, u);
      }
    }
  }

  predicate Enqueuing<T>(p: Phase<T>) {
    p.EnqLoadWrite? || p.EnqLoadRead? || p.EnqReserve? || p.EnqStore? || p.EnqCommit? || p.EnqCount?
  }

  lemma EnqueueStep<T>(s: State<T>, c: Choice<T>)
    requires Inv(s) && c.tid in s.threads && Enqueuing(s.threads[c.tid])
    ensures Inv(Next(s, c))
  {
    var t := c.tid;
    match s.threads[t]
    case EnqLoadWrite(v) => LocalStep(s, t, EnqLoadRead(v, s.write));
    case EnqLoadRead(_, _) => LoadReadStep(s, c);
    case EnqReserve(v, w, _) =>
      if s.write == w { ReserveStep(s, c); } else { LocalStep(s, t, EnqLoadWrite(v)); }
    case EnqStore(_, _) => StoreStep(s, c);
    case EnqCommit(_, w) => if s.max == w { CommitStep(s, c); }
    case EnqCount => CountStep(s, t, s.count + 1);
  }

  lemma DequeueStep<T>(s: State<T>, c: Choice<T>)
    requires Inv(s) && c.tid in s.threads && !Enqueuing(s.threads[c.tid])
    ensures Inv(Next(s, c))
  {
    var t := c.tid;
    assert ThreadOk(s, t);
    match s.threads[t]
    case Idle => LocalStep(s, t, Next(s, c).threads[t]);
    case DeqLoadRead => LocalStep(s, t, DeqLoadMax(s.read));
    case DeqLoadMax(_) => LoadMaxStep(s, c);
    case DeqCopy(r) => LocalStep(s, t, DeqClaim(r, s.slots[ToIndex(r, |s.slots|)]));
    case DeqClaim(r, _) =>
      if s.read == r { ClaimStep(s, c); } else { LocalStep(s, t, DeqLoadRead); }
    case DeqCount => CountStep(s, t, s.count - 1);
  }

  /** Every step of every thread keeps the invariant. */
  lemma NextInv<T>(s: State<T>, c: Choice<T>)
    requires Inv(s) && c.tid in s.threads
    ensures Inv(Next(s, c))
  {
    if Enqueuing(s.threads[c.tid]) { EnqueueStep(s, c); } else { DequeueStep(s, c); }
  }

  lemma CountStep<T>(s: State<T>, t: nat, count: int)
    requires Inv(s) && t in s.threads && (s.threads[t].EnqCount? || s.threads[t].DeqCount?)
    ensures Inv(Set(s, t, Idle).(count := count))
  {
    LocalStep(s, t, Idle);
    var s1, s2 := Set(s, t, Idle), Set(s, t, Idle).(count := count);
    forall u | u in s2.threads
      ensures ThreadOk(s2, u)
    {
      assert ThreadOk(s1, u);
    }
  }

  lemma LoadReadStep<T>(s: State<T>, c: Choice<T>)
    requires Inv(s) && c.tid in s.threads && s.threads[c.tid].EnqLoadRead?
    ensures Inv(Next(s, c))
  {
    var t, q := c.tid, |s.slots|;
    var v, w := s.threads[t].v, s.threads[t].w;
    assert ThreadOk(s, t);
    if w == s.write {
      FullMeansFull(w, s.read, q);
    }
    LocalStep(s, t, if Full(w, s.read, q) then Idle else EnqReserve(v, w, s.read));
  }

  lemma LoadMaxStep<T>(s: State<T>, c: Choice<T>)
    requires Inv(s) && c.tid in s.threads && s.threads[c.tid].DeqLoadMax?
    ensures Inv(Next(s, c))
  {
    var t, q := c.tid, |s.slots|;
    var r := s.threads[t].r;
    assert ThreadOk(s, t);
    if r == s.read {
      EmptyMeansEmpty(r, s.max, q);
    }
    LocalStep(s, t, if Empty(r, s.max, q) then Idle else DeqCopy(r));
  }

  // ------------------------------------------------------------------- runs

  ghost predicate Schedulable<T>(s: State<T>, cs: seq<Choice<T>>) {
    |s.slots| > 0 && forall i | 0 <= i < |cs| :: cs[i].tid in s.threads
  }

  /** The state after a whole interleaving. */
  ghost function After<T>(s: State<T>, cs: seq<Choice<T>>): (s': State<T>)
    requires Schedulable(s, cs)
    ensures s'.threads.Keys == s.threads.Keys && |s'.slots| == |s.slots|
  {
    if cs == [] then s else Next(After(s, cs[..|cs| - 1]), cs[|cs| - 1])
  }

  lemma {:induction false} AfterInv<T>(s: State<T>, cs: seq<Choice<T>>)
    requires Start(s) && Schedulable(s, cs)
    ensures Inv(After(s, cs))
  {
    if cs == [] {
      StartInv(s);
    } else {
      AfterInv(s, cs[..|cs| - 1]);
      NextInv(After(s, cs[..|cs| - 1]), cs[|cs| - 1]);
    }
  }

  /**
    In every interleaving of any number of producers and consumers: the three indices keep their
    order, the ring never overfills, and what has been dequeued is exactly the values of the first
    tickets, in ticket order, each of them once. A ticket that is reserved but not committed is in
    the hands of exactly one thread, which still carries its value.
  */
  lemma QueueSafety<T>(s: State<T>, cs: seq<Choice<T>>)
    requires Start(s) && Schedulable(s, cs)
    ensures var s' := After(s, cs);
      && s'.read <= s'.max <= s'.write <= s'.read + |s'.slots| - 1
      && |s'.outs| == s'.read && |s'.vals| == s'.write && s'.outs <= s'.vals
      && (forall i | s'.max <= i < s'.write :: Carried(s', i))
  {
    AfterInv(s, cs);
    var s' := After(s, cs);
    forall i | s'.max <= i < s'.write
      ensures Carried(s', i)
    {
      var t := s'.owner[i];
      assert Holds(s'.threads[t], i) && ThreadOk(s', t);
      forall u | u in s'.threads && Holds(s'.threads[u], i)
        ensures u == t
      {
        assert ThreadOk(s', u);
      }
    }
  }

  /** Exactly one thread holds ticket `i`, with the value that was enqueued under it. */
  ghost predicate Carried<T>(s: State<T>, i: nat)
    requires i < |s.vals|
  {
    exists t ::
      && t in s.threads && Holds(s.threads[t], i) && s.threads[t].v == s.vals[i]
      && forall u | u in s.threads && Holds(s.threads[u], i) :: u == t
  }

  /** A dequeue that succeeds returns the value enqueued under its ticket. */
  lemma DequeueReturnsItsTicket<T>(s: State<T>, cs: seq<Choice<T>>, t: nat)
    requires Start(s) && Schedulable(s, cs) && t in s.threads
    requires var p := After(s, cs).threads[t]; p.DeqClaim? && p.r == After(s, cs).read
    ensures var s' := After(s, cs);
      s'.read < |s'.vals| && s'.threads[t].x == s'.vals[s'.read]
  {
    AfterInv(s, cs);
    assert ThreadOk(After(s, cs), t);
  }

  // ---------------------------------------------------------- the item count

  ghost function Adding<T>(s: State<T>): set<nat> {
    set t | t in s.threads && s.threads[t].EnqCount?
  }

  ghost function Subtracting<T>(s: State<T>): set<nat> {
    set t | t in s.threads && s.threads[t].DeqCount?
  }

  /** `m_count` lags behind by exactly the threads that have not updated it yet. */
  ghost predicate Counted<T>(s: State<T>) {
    s.count + |Adding(s)| - |Subtracting(s)| == s.max - s.read
  }

  lemma CountedAtStart<T>(s: State<T>)
    requires Start(s)
    ensures Counted(s)
  {
    assert Adding(s) == {} && Subtracting(s) == {};
  }

  /** A step changes the phase of one thread only. */
  lemma OthersStay<T>(s: State<T>, c: Choice<T>, u: nat)
    requires |s.slots| > 0 && c.tid in s.threads && u != c.tid
    ensures u in Next(s, c).threads <==> u in s.threads
    ensures u in s.threads ==> Next(s, c).threads[u] == s.threads[u]
  {
  }

  lemma SetsAfter<T>(s: State<T>, c: Choice<T>)
    requires |s.slots| > 0 && c.tid in s.threads
    ensures var s' := Next(s, c);
      && Adding(s') == (if s'.threads[c.tid].EnqCount? then Adding(s) + {c.tid} else Adding(s) - {c.tid})
      && Subtracting(s') == (if s'.threads[c.tid].DeqCount? then Subtracting(s) + {c.tid} else Subtracting(s) - {c.tid})
  {
    var s' := Next(s, c);
    forall u
      ensures u in Adding(s') <==> if u == c.tid then s'.threads[u].EnqCount? else u in Adding(s)
      ensures u in Subtracting(s') <==> if u == c.tid then s'.threads[u].DeqCount? else u in Subtracting(s)
    {
      if u != c.tid {
        OthersStay(s, c, u);
      }
    }
  }

  /** What a step does to the counters, by the phase the thread leaves and the one it enters. */
  lemma Counters<T>(s: State<T>, c: Choice<T>)
    requires |s.slots| > 0 && c.tid in s.threads
    ensures var s' := Next(s, c); var was, now := s.threads[c.tid], s'.threads[c.tid];
      && s'.count - s.count == (if was.EnqCount? then 1 else 0) - (if was.DeqCount? then 1 else 0)
      && s'.max - s.max == (if now.EnqCount? then 1 else 0)
      && s'.read - s.read == (if now.DeqCount? then 1 else 0)
      && (was.EnqCount? || was.DeqCount? ==> now.Idle?)
  {
  }

  lemma Size(x: nat, s: set<nat>)
    ensures |s + {x}| == |s| + if x in s then 0 else 1
    ensures |s - {x}| == |s| - if x in s then 1 else 0
  {
    if x in s {
      assert s + {x} == s;
    }
  }

  lemma CountedStep<T>(s: State<T>, c: Choice<T>)
    requires |s.slots| > 0 && c.tid in s.threads && Counted(s)
    ensures Counted(Next(s, c))
  {
    SetsAfter(s, c);
    Counters(s, c);
    Size(c.tid, Adding(s));
    Size(c.tid, Subtracting(s));
    var was := s.threads[c.tid];
    assert c.tid in Adding(s) <==> was.EnqCount?;
    assert c.tid in Subtracting(s) <==> was.DeqCount?;
  }

  lemma {:induction false} CountIsExact<T>(s: State<T>, cs: seq<Choice<T>>)
    requires Start(s) && Schedulable(s, cs)
    ensures Counted(After(s, cs))
  {
    if cs == [] {
      CountedAtStart(s);
    } else {
      CountIsExact(s, cs[..|cs| - 1]);
      CountedStep(After(s, cs[..|cs| - 1]), cs[|cs| - 1]);
    }
  }
}
