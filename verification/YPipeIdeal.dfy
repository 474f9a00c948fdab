/**
  The pipe as its users see it. The writer's calls, one after the other and without their steps, act
  on a list of items with their flags; every run of the pipe does to memory what the calls say, and
  gives each call the answer that belongs to it.
*/
module YPipeIdeal {
  import opened Options
  import opened YPipe
  import opened YPipeRuns

  /** An item and the flag its `write` was called with. */
  datatype Item<T> = Item(v: T, incomplete: bool)

  /** The items written and not taken back, and how many of them have been flushed. */
  datatype Ideal<T> = Ideal(items: seq<Item<T>>, flushed: nat)

  /** How many items there are up to the last complete one. */
  function Ready<T>(items: seq<Item<T>>): (n: nat)
    ensures n <= |items| && (n > 0 ==> !items[n - 1].incomplete)
    ensures forall i | n <= i < |items| :: items[i].incomplete
  {
    if items == [] then 0
    else if items[|items| - 1].incomplete then Ready(items[..|items| - 1])
    else |items|
  }

  function Vals<T>(items: seq<Item<T>>): seq<T> {
    seq(|items|, i requires 0 <= i < |items| => items[i].v)
  }

  /** What a call of the writer means; the steps inside a call, and the reader, change nothing. */
  function Does<T>(i: Ideal<T>, call: Call<T>): Ideal<T> {
    match call
    case Write(v, incomplete) => i.(items := i.items + [Item(v, incomplete)])
    case Unwrite =>
      if i.items != [] && i.items[|i.items| - 1].incomplete then i.(items := i.items[..|i.items| - 1]) else i
    case Flush => i.(flushed := Ready(i.items))
    case _ => i
  }

  /** The items without the newest one, which is still being written. */
  function Before<T>(i: Ideal<T>): seq<Item<T>> {
    if i.items == [] then [] else i.items[..|i.items| - 1]
  }

  /** How far the call in progress has come. */
  ghost predicate WriterAt<T>(s: Pipe<T>, i: Ideal<T>) {
    match s.wphase
    case WIdle => s.sent == Vals(i.items) && s.fp == Ready(i.items) && s.wp == i.flushed
    case WStore(v, incomplete) => Newest(i, incomplete) && i.items[|i.items| - 1].v == v && Pending(s, i, Before(i))
    case WPush(incomplete) => Newest(i, incomplete) && Pending(s, i, i.items)
    case WXchg(incomplete) => Newest(i, incomplete) && Pending(s, i, i.items)
    case WLink(incomplete, _) => Newest(i, incomplete) && Pending(s, i, i.items)
    case _ => s.sent == Vals(i.items) && s.fp == Ready(i.items) == i.flushed
  }

  ghost predicate Newest<T>(i: Ideal<T>, incomplete: bool) {
    i.items != [] && i.items[|i.items| - 1].incomplete == incomplete
  }

  ghost predicate Pending<T>(s: Pipe<T>, i: Ideal<T>, stored: seq<Item<T>>) {
    s.sent == Vals(stored) && s.fp == Ready(Before(i)) && s.wp == i.flushed
  }

  lemma OneMoreItem<T>(items: seq<Item<T>>, x: Item<T>)
    ensures Vals(items + [x]) == Vals(items) + [x.v]
    ensures Ready(items + [x]) == if x.incomplete then Ready(items) else |items| + 1
  {
    var all := items + [x];
    assert all[..|items|] == items && all[|all| - 1] == x;
    assert |Vals(all)| == |Vals(items) + [x.v]|;
    forall k | 0 <= k < |all|
      ensures Vals(all)[k] == (Vals(items) + [x.v])[k]
    {
      assert Vals(all)[k] == all[k].v;
    }
  }

  lemma Newer<T>(i: Ideal<T>)
    requires i.items != []
    ensures var x := i.items[|i.items| - 1];
      && Vals(i.items) == Vals(Before(i)) + [x.v]
      && Ready(i.items) == if x.incomplete then Ready(Before(i)) else |i.items|
  {
    OneMoreItem(Before(i), i.items[|i.items| - 1]);
    assert i.items == Before(i) + [i.items[|i.items| - 1]];
  }

  /** A call that the writer begins, and that is over at once if it finds nothing to do. */
  lemma CallBegins<T>(s: Pipe<T>, i: Ideal<T>, call: Call<T>)
    requires Inv(s) && WriterAt(s, i) && s.wphase.WIdle? && Fits(s, call) && Safe(s, call) && ByWriter(call)
    ensures WriterAt(Next(s, call), Does(i, call))
  {
    WriterTests(s);
    if call.Write? { WriteBegins(s, i, call.v, call.incomplete); } else { OtherBegins(s, i, call); }
  }

  lemma WriteBegins<T>(s: Pipe<T>, i: Ideal<T>, v: T, incomplete: bool)
    requires WriterAt(s, i) && s.wphase.WIdle?
    ensures WriterAt(s.(wphase := WStore(v, incomplete)), Does(i, Write(v, incomplete)))
  {
    OneMoreItem(i.items, Item(v, incomplete));
  }

  lemma OtherBegins<T>(s: Pipe<T>, i: Ideal<T>, call: Call<T>)
    requires WriterAt(s, i) && s.wphase.WIdle? && Safe(s, call) && call in {Unwrite, Flush}
    requires (s.f == s.back <==> s.fp == |s.sent|) && (s.w == s.f <==> s.wp == s.fp)
    ensures WriterAt(Next(s, call), Does(i, call))
  {
    if i.items != [] {
      Newer(i);
      if call.Unwrite? && s.f != s.back { assert Unpush(s).sent == Vals(Before(i)); }
    }
  }

  lemma WriterGoesOn<T>(s: Pipe<T>, i: Ideal<T>, id: nat)
    requires Inv(s) && WriterAt(s, i) && !s.wphase.WIdle? && WriterSafe(s)
    ensures WriterAt(WriterStep(s, id), i)
  {
    if i.items != [] { Newer(i); }
  }

  /** The reader leaves alone what belongs to the writer. */
  lemma ReaderLeaves<T>(s: Pipe<T>, call: Call<T>)
    requires Fits(s, call) && Safe(s, call) && !ByWriter(call)
    ensures var s' := Next(s, call); s'.wphase == s.wphase && s'.sent == s.sent && s'.fp == s.fp && s'.wp == s.wp
  {
  }

  /** The writer leaves alone what belongs to the reader. */
  lemma WriterLeaves<T>(s: Pipe<T>, call: Call<T>)
    requires Fits(s, call) && Safe(s, call) && ByWriter(call)
    ensures var s' := Next(s, call); s'.rphase == s.rphase && s'.got == s.got
  {
  }

  // ------------------------------------------------------------------ answers

  /** What `flush` or `unwrite` returns if it returns with this step. */
  function WriterAnswer<T>(s: Pipe<T>, call: Call<T>): Option<bool>
    requires Fits(s, call)
  {
    match call
    case Flush => if s.w == s.f then Some(true) else None
    case Unwrite => Some(s.f != s.back)
    case Writing(_) => if s.wphase.WCas? && s.c == Some(s.w) then Some(true)
      else if s.wphase.WSet? then Some(false) else None
    case _ => None
  }

  /** What `read` or `check_read` returns if it returns with this step. */
  function ReaderAnswer<T>(s: Pipe<T>, call: Call<T>): Option<bool>
    requires Fits(s, call)
  {
    match call
    case Check => if s.r.Some? && s.r != Some(s.begin) then Some(true) else None
    case Reading =>
      (match s.rphase
       case RCas(take) =>
         if s.c.None? || s.c == Some(s.begin) then Some(false) else if take then None else Some(true)
       case RPop => if s.begin.pos + 1 != s.n then Some(true) else None
       case RFree(_) => Some(true)
       case _ => None)
    case _ => None
  }

  /** The reader's call in progress: whether it is `read`, and how many items had been read before it. */
  datatype Asking = Asking(take: bool, had: nat)

  ghost predicate ReaderAt<T>(s: Pipe<T>, d: Asking) {
    match s.rphase
    case RIdle => true
    case RCas(take) => take == d.take && |s.got| == d.had
    case RTake => d.take && |s.got| == d.had
    case _ => d.take && |s.got| == d.had + 1
  }

  /** The call in progress after this step has been scheduled. */
  function Asked<T>(s: Pipe<T>, d: Asking, call: Call<T>): Asking {
    if call.Read? || call.Check? then Asking(call.Read?, |s.got|) else d
  }

  /**
    A call of the reader returns as soon as it is idle again: true only with an item, which `read`
    has taken, and false only if every flushed item has been read.
  */
  ghost predicate Answers<T>(s: Pipe<T>, d: Asking, answer: Option<bool>) {
    match answer
    case None => !s.rphase.RIdle?
    case Some(found) =>
      && s.rphase.RIdle?
      && |s.got| == d.had + (if d.take && found then 1 else 0)
      && (found && !d.take ==> |s.got| < s.wp)
      && (!found ==> s.wp <= |s.sent| && s.got == s.sent[..s.wp])
  }

  lemma ReaderBegins<T>(s: Pipe<T>, take: bool)
    requires Inv(s) && s.rphase.RIdle?
    ensures var s', d := Look(s, take), Asking(take, |s.got|);
      ReaderAt(s', d) && Answers(s', d, ReaderAnswer(s, if take then Read else Check))
  {
    LookStep(s, take);
  }

  lemma ReaderTries<T>(s: Pipe<T>, d: Asking)
    requires Inv(s) && ReaderAt(s, d) && s.rphase.RCas?
    ensures ReaderAt(ReaderStep(s), d) && Answers(ReaderStep(s), d, ReaderAnswer(s, Reading))
  {
    AddressesMeanPositions(s, s.front, s.wp);
  }

  lemma ReaderTakes<T>(s: Pipe<T>, d: Asking)
    requires Inv(s) && ReaderAt(s, d) && !s.rphase.RIdle? && !s.rphase.RCas? && ReaderSafe(s)
    ensures ReaderAt(ReaderStep(s), d) && Answers(ReaderStep(s), d, ReaderAnswer(s, Reading))
  {
  }

  lemma ReaderGoesOn<T>(s: Pipe<T>, d: Asking, call: Call<T>)
    requires Inv(s) && ReaderAt(s, d) && Fits(s, call) && Safe(s, call) && !ByWriter(call)
    ensures var s', d' := Next(s, call), Asked(s, d, call);
      ReaderAt(s', d') && Answers(s', d', ReaderAnswer(s, call))
  {
    if s.rphase.RIdle? {
      ReaderBegins(s, call.Read?);
    } else if s.rphase.RCas? {
      ReaderTries(s, d);
    } else {
      ReaderTakes(s, d);
    }
  }

  /**
    What the writer's calls return: `unwrite` whether the newest item is incomplete; `flush` false
    exactly if the reader has found nothing since the last flush, and true at once only if no
    complete item is left to flush.
  */
  ghost predicate WriterReturns<T>(s: Pipe<T>, i: Ideal<T>, call: Call<T>)
    requires Fits(s, call) && Safe(s, call)
  {
    var answer, after := WriterAnswer(s, call), Next(s, call).wphase;
    match call
    case Unwrite => after.WIdle? && answer == Some(i.items != [] && i.items[|i.items| - 1].incomplete)
    case Flush => if i.flushed == Ready(i.items) then after.WIdle? && answer == Some(true) else after.WCas?
    case Writing(_) =>
      && (s.wphase.WCas? ==> if s.asleep then after.WSet? else after.WIdle? && answer == Some(true))
      && (s.wphase.WSet? ==> after.WIdle? && answer == Some(false))
    case _ => true
  }

  lemma WriterIsAnswered<T>(s: Pipe<T>, i: Ideal<T>, call: Call<T>)
    requires Inv(s) && WriterAt(s, i) && Fits(s, call) && Safe(s, call) && ByWriter(call)
    ensures WriterReturns(s, i, call)
  {
    if s.wphase.WIdle? { WriterTests(s); }
    if s.wphase.WCas? { WriterCasStep(s, 0); }
  }

  // --------------------------------------------------------------------- runs

  /** A run beside what its calls mean. */
  datatype Log<T> = Log(s: Pipe<T>, ideal: Ideal<T>, asked: Asking)

  ghost predicate Faithful<T>(l: Log<T>) {
    Inv(l.s) && WriterAt(l.s, l.ideal) && ReaderAt(l.s, l.asked)
  }

  ghost function Then<T>(l: Log<T>, call: Call<T>): Log<T>
    requires Inv(l.s)
  {
    if Fits(l.s, call) then
      NextKeeps(l.s, call);
      Log(Next(l.s, call), Does(l.ideal, call), Asked(l.s, l.asked, call))
    else l
  }

  lemma ThenFaithful<T>(l: Log<T>, call: Call<T>)
    requires Faithful(l)
    ensures Faithful(Then(l, call))
  {
    if Fits(l.s, call) {
      NextKeeps(l.s, call);
      if ByWriter(call) { WriterThen(l.s, l.ideal, l.asked, call); } else { ReaderThen(l.s, l.ideal, l.asked, call); }
    }
  }

  lemma WriterThen<T>(s: Pipe<T>, i: Ideal<T>, d: Asking, call: Call<T>)
    requires Inv(s) && WriterAt(s, i) && ReaderAt(s, d) && Fits(s, call) && Safe(s, call) && ByWriter(call)
    ensures WriterAt(Next(s, call), Does(i, call)) && ReaderAt(Next(s, call), Asked(s, d, call))
  {
    WriterLeaves(s, call);
    if call.Writing? { WriterGoesOn(s, i, call.id); } else { CallBegins(s, i, call); }
  }

  lemma ReaderThen<T>(s: Pipe<T>, i: Ideal<T>, d: Asking, call: Call<T>)
    requires Inv(s) && WriterAt(s, i) && ReaderAt(s, d) && Fits(s, call) && Safe(s, call) && !ByWriter(call)
    ensures WriterAt(Next(s, call), Does(i, call)) && ReaderAt(Next(s, call), Asked(s, d, call))
  {
    ReaderLeaves(s, call);
    ReaderGoesOn(s, d, call);
  }

  ghost function Logged<T>(n: nat, c0: nat, c1: nat, calls: seq<Call<T>>): (l: Log<T>)
    requires n > 0 && c0 != c1
    ensures l.s == Run(n, c0, c1, calls) && Faithful(l)
  {
    StartInv<T>(n, c0, c1);
    if calls == [] then Log(Start(n, c0, c1), Ideal([], 0), Asking(false, 0))
    else
      var l := Logged(n, c0, c1, calls[..|calls| - 1]);
      ThenFaithful(l, calls[|calls| - 1]);
      Then(l, calls[|calls| - 1])
  }

  /**
    In every interleaving the memory of the pipe holds what the writer's calls mean: between two
    calls, the items written and not taken back, the position behind the last complete one, and the
    position up to which the last `flush` made items readable. What has been read is a prefix of the
    flushed items; so no item is read before a complete one at or behind it has been written and
    flushed.
  */
  lemma PipeIsIdeal<T>(n: nat, c0: nat, c1: nat, calls: seq<Call<T>>)
    requires n > 0 && c0 != c1
    ensures var l := Logged(n, c0, c1, calls); IsIdeal(l.s, l.ideal)
  {
    var l := Logged(n, c0, c1, calls);
    PipeSafety(n, c0, c1, calls);
    FlushedIsReady(n, c0, c1, calls);
    SafeIsIdeal(l.s, l.ideal);
  }

  ghost predicate IsIdeal<T>(s: Pipe<T>, i: Ideal<T>) {
    && (s.wphase.WIdle? ==> s.sent == Vals(i.items) && s.fp == Ready(i.items) && s.wp == i.flushed)
    && |s.got| <= i.flushed <= Ready(i.items) && s.got == Vals(i.items)[..|s.got|]
  }

  lemma SafeIsIdeal<T>(s: Pipe<T>, i: Ideal<T>)
    requires WriterAt(s, i) && i.flushed <= Ready(i.items)
    requires s.wp <= s.fp <= |s.sent| && s.got <= s.sent[..s.wp]
    ensures IsIdeal(s, i)
  {
    SentIsIdeal(s, i);
  }

  /** Items are in memory only after their calls have begun, and flushed only after a `flush` has. */
  lemma SentIsIdeal<T>(s: Pipe<T>, i: Ideal<T>)
    requires WriterAt(s, i) && s.wp <= s.fp <= |s.sent|
    ensures s.wp <= i.flushed && s.sent <= Vals(i.items)
  {
    if i.items != [] { Newer(i); }
  }

  lemma {:induction false} FlushedIsReady<T>(n: nat, c0: nat, c1: nat, calls: seq<Call<T>>)
    requires n > 0 && c0 != c1
    ensures var i := Logged(n, c0, c1, calls).ideal; i.flushed <= Ready(i.items)
  {
    if calls != [] {
      var l, call := Logged(n, c0, c1, calls[..|calls| - 1]), calls[|calls| - 1];
      FlushedIsReady(n, c0, c1, calls[..|calls| - 1]);
      DoesKeepsReady(l.ideal, call);
    }
  }

  lemma DoesKeepsReady<T>(i: Ideal<T>, call: Call<T>)
    requires i.flushed <= Ready(i.items)
    ensures Does(i, call).flushed <= Ready(Does(i, call).items)
  {
    if call.Write? { OneMoreItem(i.items, Item(call.v, call.incomplete)); }
    if call.Unwrite? && i.items != [] { Newer(i); }
  }

  /** Every call returns the answer that belongs to it, whatever the other thread does meanwhile. */
  lemma CallsAreAnswered<T>(n: nat, c0: nat, c1: nat, calls: seq<Call<T>>, call: Call<T>)
    requires n > 0 && c0 != c1
    requires Fits(Run(n, c0, c1, calls), call)
    ensures var l := Logged(n, c0, c1, calls);
      && Safe(l.s, call)
      && if ByWriter(call) then WriterReturns(l.s, l.ideal, call)
         else Answers(Next(l.s, call), Asked(l.s, l.asked, call), ReaderAnswer(l.s, call))
  {
    var l := Logged(n, c0, c1, calls);
    NextKeeps(l.s, call);
    if ByWriter(call) { WriterIsAnswered(l.s, l.ideal, call); } else { ReaderGoesOn(l.s, l.asked, call); }
  }

  /** How many steps a call has before it at most. */
  function WriterLeft<T>(p: WriterPhase<T>): nat {
    match p
    case WIdle => 0
    case WStore(_, _) => 4
    case WPush(_) => 3
    case WXchg(_) => 2
    case WLink(_, _) => 1
    case WCas => 2
    case WSet => 1
  }

  function ReaderLeft(p: ReaderPhase): nat {
    match p
    case RIdle => 0
    case RCas(_) => 5
    case RTake => 4
    case RPop => 3
    case RSwap(_) => 2
    case RFree(_) => 1
  }

  /** Both threads are wait-free: a step brings its own call nearer to its end, and leaves the other one where it is. */
  lemma WaitFree<T>(s: Pipe<T>, call: Call<T>)
    requires Fits(s, call) && Safe(s, call)
    ensures var s' := Next(s, call);
      && (if call.Writing? then WriterLeft(s'.wphase) < WriterLeft(s.wphase)
          else !ByWriter(call) ==> s'.wphase == s.wphase)
      && (if call.Reading? then ReaderLeft(s'.rphase) < ReaderLeft(s.rphase)
          else ByWriter(call) ==> s'.rphase == s.rphase)
  {
  }
}
