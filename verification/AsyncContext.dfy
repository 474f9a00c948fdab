/**
  The callback queue of async.c for plain commands with automatic freeing. What user callbacks do
  is arbitrary: `behave` tells, for the n-th call of a command's callback, the commands, disconnects
  and frees it issues, and `onPush` the same for the callback that gets spontaneous push replies.
  After `freed` is set every use of the context is ruled out by the preconditions.
*/
module AsyncContext {
  import opened Options
  import opened CallbackLists
  import opened Resp

  /** What a callback, or the program outside of callbacks, may call. */
  datatype Action = Command(hasFn: bool, len: nat) | Disconnect | Free

  /**
    What the event loop may report: replies that the reader delivers before it runs dry or breaks,
    bytes written, trouble.
  */
  datatype Op = Call(a: Action) | Read(batch: seq<Reply>, broken: bool) | Write(n: nat) | IoError

  /** Command `id` got `reply`, where `None` stands for NULL; `hasFn` says that there was a callback to call. */
  datatype Answer = Answer(id: nat, reply: Option<Reply>, hasFn: bool)

  /** The k-th reply, or NULL if there is none. */
  function ReplyTo(k: nat, received: seq<Reply>): Option<Reply> {
    if k < |received| then Some(received[k]) else None
  }

  /** The k-th command gets the k-th reply. */
  ghost predicate Matched(answers: seq<Answer>, received: seq<Reply>, accepted: seq<bool>) {
    && |answers| <= |accepted|
    && forall k :: 0 <= k < |answers| ==> answers[k] == Answer(k, ReplyTo(k, received), accepted[k])
  }

  /** All replies are matched; what is answered beyond them got NULL. */
  ghost predicate InOrder(answers: seq<Answer>, received: seq<Reply>, accepted: seq<bool>) {
    |received| <= |answers| && Matched(answers, received, accepted)
  }

  /** The commands from number `from` on are waiting, in order. */
  ghost predicate Waiting(pending: seq<Callback>, from: nat, accepted: seq<bool>) {
    && from + |pending| == |accepted|
    && forall k :: 0 <= k < |pending| ==> pending[k] == Callback(from + k, accepted[from + k])
  }

  lemma FirstWaiting(pending: seq<Callback>, cb: Callback, rest: seq<Callback>, from: nat, accepted: seq<bool>)
    requires pending == [cb] + rest && Waiting(pending, from, accepted)
    ensures cb == Callback(from, accepted[from]) && Waiting(rest, from + 1, accepted)
  {
    assert pending[0] == cb;
    assert forall k :: 0 <= k < |rest| ==> rest[k] == pending[k + 1];
  }

  lemma OneMoreWaiting(pending: seq<Callback>, answers: seq<Answer>, received: seq<Reply>, accepted: seq<bool>,
        hasFn: bool)
    requires Waiting(pending, |answers|, accepted) && InOrder(answers, received, accepted)
    ensures Waiting(pending + [Callback(|accepted|, hasFn)], |answers|, accepted + [hasFn])
    ensures InOrder(answers, received, accepted + [hasFn])
  {
  }

  lemma OneMoreAnswer(answers: seq<Answer>, received: seq<Reply>, accepted: seq<bool>, reply: Option<Reply>)
    requires InOrder(answers, received, accepted) && |answers| < |accepted|
    requires reply.Some? ==> |answers| == |received|
    ensures var k := |answers|;
      InOrder(answers + [Answer(k, reply, accepted[k])],
              if reply.Some? then received + [reply.value] else received, accepted)
  {
  }

  /** The calls of callbacks that the answers lead to. */
  ghost function Calls(answers: seq<Answer>): seq<(nat, Option<Reply>)> {
    if answers == [] then []
    else
      var a := answers[|answers| - 1];
      Calls(answers[..|answers| - 1]) + if a.hasFn then [(a.id, a.reply)] else []
  }

  lemma CallsOneMore(answers: seq<Answer>, a: Answer)
    ensures Calls(answers + [a]) == Calls(answers) + if a.hasFn then [(a.id, a.reply)] else []
  {
    assert (answers + [a])[..|answers|] == answers;
  }

  /** What the program and the callbacks can change: the commands accepted, and the two flags. */
  datatype Flags = Flags(accepted: seq<bool>, disconnecting: bool, freeing: bool)

  /** What a call from inside a callback does. */
  function Acted(f: Flags, a: Action): Flags {
    match a
    case Command(hasFn, _) => if f.disconnecting || f.freeing then f else f.(accepted := f.accepted + [hasFn])
    case Disconnect => f.(disconnecting := true)
    case Free => f.(freeing := true)
  }

  ghost function ActedAll(f: Flags, todo: seq<Action>, n: nat): (f': Flags)
    requires n <= |todo|
    ensures f.accepted <= f'.accepted && (f.disconnecting ==> f'.disconnecting) && (f.freeing ==> f'.freeing)
    ensures f.disconnecting || f.freeing ==> f'.accepted == f.accepted
  {
    if n == 0 then f else Acted(ActedAll(f, todo, n - 1), todo[n - 1])
  }

  /** What a sequence of calls amounts to from the start. */
  ghost function Folded(acts: seq<Action>): Flags {
    ActedAll(Flags([], false, false), acts, |acts|)
  }

  lemma {:induction false} ActedPrefix(f: Flags, a: seq<Action>, b: seq<Action>, n: nat)
    requires n <= |a|
    ensures ActedAll(f, a + b, n) == ActedAll(f, a, n)
  {
    if n > 0 { ActedPrefix(f, a, b, n - 1); }
  }

  lemma FoldedOneMore(acts: seq<Action>, a: Action)
    ensures Folded(acts + [a]) == Acted(Folded(acts), a)
  {
    ActedPrefix(Flags([], false, false), acts, [a], |acts|);
  }

  lemma TakeOneMore(todo: seq<Action>, i: nat)
    requires i < |todo|
    ensures todo[..i + 1] == todo[..i] + [todo[i]]
  {
  }

  predicate IsError(r: Reply) {
    r.Text? && r.kind == ERROR
  }

  function Lower(c: char): char {
    if 'A' <= c <= 'Z' then c - 'A' + 'a' else c
  }

  /** `!strncasecmp(s, word, |s|)` for a lower-case `word`: equal up to the end of `s`, or both end before. */
  predicate Names(s: string, word: string) {
    && (forall i :: 0 <= i < |s| && i < |word| ==> Lower(s[i]) == word[i])
    && (|s| > |word| ==> s[|word|] == '\0')
  }

  /** `redisIsSubscribeReply` */
  predicate IsSubscribeReply(r: Reply) {
    && r.Agg? && |r.elems| > 0 && r.elems[0].Text? && r.elems[0].kind == STRING && |r.elems[0].str| >= |"message"|
    && var str := r.elems[0].str;
      var name := if Lower(str[0]) == 'p' then str[1..] else str;
      Names(name, "subscribe") || Names(name, "message")
  }

  /** `redisIsSpontaneousPushReply` */
  predicate IsSpontaneous(r: Reply) {
    r.Agg? && r.akind == PUSH && !IsSubscribeReply(r)
  }

  /** The replies that go to commands: all but the spontaneous pushes. */
  ghost function Regular(batch: seq<Reply>): seq<Reply> {
    if batch == [] then []
    else
      var last := batch[|batch| - 1];
      Regular(batch[..|batch| - 1]) + if IsSpontaneous(last) then [] else [last]
  }

  lemma RegularOneMore(start: seq<Reply>, batch: seq<Reply>, n: nat)
    requires n < |batch|
    ensures var one := if IsSpontaneous(batch[n]) then [] else [batch[n]];
      && Regular(batch[..n + 1]) == Regular(batch[..n]) + one
      && start + Regular(batch[..n + 1]) == start + Regular(batch[..n]) + one
  {
    assert batch[..n + 1][..n] == batch[..n];
  }

  lemma {:induction false} RegularGrows(batch: seq<Reply>, n: nat)
    requires n <= |batch|
    ensures Regular(batch[..n]) <= Regular(batch)
    decreases |batch| - n
  {
    if n < |batch| {
      RegularOneMore([], batch, n);
      RegularGrows(batch, n + 1);
    } else {
      assert batch[..n] == batch;
    }
  }

  ghost function BroughtBy(op: Op): seq<Reply> {
    if op.Read? then Regular(op.batch) else []
  }

  /** The context does not outlive such an event. */
  predicate Fatal(op: Op) {
    op.IoError? || op == Call(Free) || (op.Read? && op.broken)
  }

  /** None of the first `n` events is fatal. */
  ghost predicate Harmless(ops: seq<Op>, n: nat)
    requires n <= |ops|
  {
    forall i :: 0 <= i < n ==> !Fatal(ops[i])
  }

  /** The replies that the first `n` events bring. */
  ghost function Brought(ops: seq<Op>, n: nat): seq<Reply>
    requires n <= |ops|
  {
    if n == 0 then [] else Brought(ops, n - 1) + BroughtBy(ops[n - 1])
  }

  lemma {:induction false} BroughtGrows(ops: seq<Op>, n: nat)
    requires n <= |ops|
    ensures Brought(ops, n) <= Brought(ops, |ops|)
    decreases |ops| - n
  {
    if n < |ops| { BroughtGrows(ops, n + 1); }
  }

  /** The calls that the program makes in the first `n` events. */
  ghost function Asked(ops: seq<Op>, n: nat): seq<Action>
    requires n <= |ops|
  {
    if n == 0 then [] else Asked(ops, n - 1) + if ops[n - 1].Call? then [ops[n - 1].a] else []
  }

  /** The calls `a` are among the calls `b`, in the same order. */
  ghost predicate Within(a: seq<Action>, b: seq<Action>)
    decreases |b|
  {
    if a == [] then true
    else if b == [] then false
    else Within(if a[|a| - 1] == b[|b| - 1] then a[..|a| - 1] else a, b[..|b| - 1])
  }

  lemma {:induction false} WithinFewer(a: seq<Action>, b: seq<Action>)
    requires a != [] && Within(a, b)
    ensures Within(a[..|a| - 1], b)
    decreases |b|
  {
    var fewer, last := a[..|a| - 1], b[|b| - 1];
    if a[|a| - 1] == last {
      if fewer != [] && fewer[|fewer| - 1] == last { WithinFewer(fewer, b[..|b| - 1]); }
    } else {
      WithinFewer(a, b[..|b| - 1]);
      if fewer != [] && fewer[|fewer| - 1] == last { WithinFewer(fewer, b[..|b| - 1]); }
    }
  }

  lemma {:induction false} WithinMore(a: seq<Action>, b: seq<Action>, c: seq<Action>)
    requires Within(a, b)
    ensures Within(a, b + c)
    decreases |c|
  {
    if c == [] {
      assert b + c == b;
    } else {
      var most := b + c[..|c| - 1];
      WithinMore(a, b, c[..|c| - 1]);
      assert (b + c)[..|b + c| - 1] == most;
      if a != [] && a[|a| - 1] == c[|c| - 1] { WithinFewer(a, most); }
    }
  }

  /** One event more, with what has been called meanwhile. */
  lemma AskedNext(ops: seq<Op>, i: nat, before: seq<Action>, was: seq<Action>, acts: seq<Action>)
    requires i < |ops| && before <= was && Within(Asked(ops, i), was[|before|..])
    requires was + (if ops[i].Call? then [ops[i].a] else []) <= acts
    ensures before <= acts && Within(Asked(ops, i + 1), acts[|before|..])
  {
    var now := if ops[i].Call? then [ops[i].a] else [];
    var b := was[|before|..] + now;
    if ops[i].Call? {
      assert b[..|b| - 1] == was[|before|..] && Asked(ops, i + 1)[..|Asked(ops, i)|] == Asked(ops, i);
    } else {
      assert b == was[|before|..] && Asked(ops, i + 1) == Asked(ops, i);
    }
    WithinMore(Asked(ops, i + 1), b, acts[|was + now|..]);
    assert acts[|before|..] == b + acts[|was + now|..];
  }

  /** `received` is `start` and what was brought since, or, once the end has come, the beginning of that. */
  ghost predicate Kept(start: seq<Reply>, received: seq<Reply>, brought: seq<Reply>, going: bool) {
    received <= start + brought && (going ==> received == start + brought)
  }

  lemma KeptOn(start: seq<Reply>, mid: seq<Reply>, received: seq<Reply>, a: seq<Reply>, b: seq<Reply>, going: bool)
    requires mid == start + a && Kept(mid, received, b, going)
    ensures Kept(start, received, a + b, going)
  {
    assert mid + b == start + (a + b);
  }

  lemma KeptToEnd(start: seq<Reply>, received: seq<Reply>, ops: seq<Op>, n: nat, going: bool)
    requires n <= |ops| && Kept(start, received, Brought(ops, n), going) && (going ==> n == |ops|)
    ensures Kept(start, received, Brought(ops, |ops|), going)
  {
    BroughtGrows(ops, n);
  }

  class AsyncContext {
    const behave: nat -> seq<Action>
    const onPush: Option<nat -> seq<Action>>
    const replies: CallbackList
    var disconnecting: bool
    var freeing: bool
    var inCallback: bool
    var err: bool
    var copiedErr: bool
    var obuf: nat
    var ncalls: nat
    var npushes: nat
    var freed: bool
    var accepted: seq<bool>
    ghost var received: seq<Reply>
    ghost var answers: seq<Answer>
    ghost var calls: seq<(nat, Option<Reply>)>
    ghost var acts: seq<Action>

    ghost function Now(): Flags
      reads `accepted, `disconnecting, `freeing
    {
      Flags(accepted, disconnecting, freeing)
    }

    /**
      Pending callbacks are those of the accepted commands without an answer, in order; which commands
      were accepted, and the two flags, follow from all the calls there have been.
    */
    ghost predicate Queued()
      reads `accepted, `disconnecting, `freeing, `received, `answers, `acts
      reads replies, replies.repr
    {
      && Now() == Folded(acts)
      && replies.Valid() && this !in replies.repr
      && InOrder(answers, received, accepted)
      && Waiting(replies.contents, |answers|, accepted)
    }

    ghost predicate Valid()
      reads `accepted, `disconnecting, `freeing, `received, `answers, `acts, `calls
      reads replies, replies.repr
    {
      Queued() && calls == Calls(answers)
    }

    /** Between two calls from outside. */
    ghost predicate Idle()
      reads `accepted, `disconnecting, `freeing, `received, `answers, `acts, `calls, `freed, `inCallback, `err
      reads replies, replies.repr
    {
      && Valid()
      && if freed then |answers| == |accepted|
         else !inCallback && !err && |answers| == |received|
    }

    constructor (behave: nat -> seq<Action>, onPush: Option<nat -> seq<Action>>)
      ensures Idle() && !freed && fresh(replies.repr)
      ensures accepted == [] && received == []
    {
      this.behave, this.onPush := behave, onPush;
      replies := new CallbackList();
      disconnecting, freeing, inCallback, err, copiedErr := false, false, false, false, false;
      obuf, ncalls, npushes, freed := 0, 0, 0, false;
      accepted, received, answers, calls, acts := [], [], [], [], [];
    }

    /** Once the connection is about to be closed, no command is accepted any more. */
    method AsyncCommand(hasFn: bool, len: nat) returns (ok: bool)
      requires Valid() && !freed
      modifies this`obuf, this`accepted, this`acts, replies.repr
      ensures Valid() && fresh(replies.repr - old(replies.repr)) && acts == old(acts) + [Command(hasFn, len)]
      ensures ok == !(disconnecting || freeing)
      ensures accepted == if ok then old(accepted) + [hasFn] else old(accepted)
      ensures obuf == if ok then old(obuf) + len else old(obuf)
      ensures !ok ==> replies.contents == old(replies.contents)
    {
      if disconnecting || freeing {
        FoldedOneMore(acts, Command(hasFn, len));
        acts := acts + [Command(hasFn, len)];
        return false;
      }
      Accept(hasFn, len);
      return true;
    }

    /** The command's callback goes last into the queue, and its bytes into the output buffer. */
    method Accept(hasFn: bool, len: nat)
      requires Valid() && !freed && !disconnecting && !freeing
      modifies this`obuf, this`accepted, this`acts, replies.repr
      ensures Valid() && fresh(replies.repr - old(replies.repr)) && acts == old(acts) + [Command(hasFn, len)]
      ensures accepted == old(accepted) + [hasFn] && obuf == old(obuf) + len
    {
      OneMoreWaiting(replies.contents, answers, received, accepted, hasFn);
      replies.Push(Callback(|accepted|, hasFn));
      FoldedOneMore(acts, Command(hasFn, len));
      acts := acts + [Command(hasFn, len)];
      accepted := accepted + [hasFn];
      obuf := obuf + len;
    }

    /** Inside a callback freeing is put off; otherwise it happens now. */
    method AsyncFree()
      requires if inCallback then Valid() && !freed else Idle() && !freed
      modifies this, replies.repr
      ensures Valid() && fresh(replies.repr - old(replies.repr))
      ensures freed == !old(inCallback) && inCallback == old(inCallback) && freeing
      ensures err == old(err) && old(acts) + [Free] <= acts && (!freed ==> acts == old(acts) + [Free])
      ensures accepted == old(accepted) && received == old(received)
      ensures freed ==> |answers| == |accepted|
      ensures old(disconnecting) ==> disconnecting
      ensures !freed ==>
        && answers == old(answers) && calls == old(calls) && replies.contents == old(replies.contents)
        && disconnecting == old(disconnecting) && err == old(err) && ncalls == old(ncalls) && npushes == old(npushes)
      decreases if inCallback then 0 else 1, 6
    {
      FoldedOneMore(acts, Free);
      freeing, acts := true, acts + [Free];
      if !inCallback { Teardown(); }
    }

    /** Inside a callback, or while callbacks are pending, disconnecting is put off. */
    method AsyncDisconnect()
      requires if inCallback then Valid() && !freed else Idle() && !freed
      modifies this, replies.repr
      ensures Valid() && fresh(replies.repr - old(replies.repr))
      ensures freed == (!old(inCallback) && |old(replies.contents)| == 0) && inCallback == old(inCallback)
      ensures accepted == old(accepted) && received == old(received) && disconnecting
      ensures err == old(err) && old(acts) + [Disconnect] <= acts && (!freed ==> acts == old(acts) + [Disconnect])
      ensures freed ==> |answers| == |accepted|
      ensures !freed ==>
        && answers == old(answers) && calls == old(calls) && replies.contents == old(replies.contents)
        && freeing == old(freeing) && err == old(err) && ncalls == old(ncalls) && npushes == old(npushes)
      decreases if inCallback then 0 else 1, 6
    {
      FoldedOneMore(acts, Disconnect);
      disconnecting, acts := true, acts + [Disconnect];
      var empty := replies.IsEmpty();
      if !inCallback && empty { DisconnectNow(); }
    }

    /** A call from inside a callback or from the program. */
    method Perform(a: Action)
      requires if inCallback then Valid() && !freed else Idle() && !freed
      modifies this, replies.repr
      ensures Valid() && fresh(replies.repr - old(replies.repr))
      ensures received == old(received) && inCallback == old(inCallback)
      ensures old(inCallback) ==> !freed && Now() == Acted(old(Now()), a)
      ensures accepted == Acted(old(Now()), a).accepted
      ensures !freed ==> answers == old(answers) && calls == old(calls) && err == old(err)
      ensures !freed ==> ncalls == old(ncalls) && npushes == old(npushes)
      ensures !freed && !inCallback ==> freeing == old(freeing)
      ensures freed ==> |answers| == |accepted|
      ensures !old(inCallback) ==> freed == match a
        case Command(_, _) => false
        case Disconnect => |old(replies.contents)| == 0
        case Free => true
      ensures err == old(err) && old(acts) + [a] <= acts && (!freed ==> acts == old(acts) + [a])
      ensures a.Disconnect? ==> disconnecting
      ensures a.Command? ==> disconnecting == old(disconnecting)
      decreases if inCallback then 0 else 1, 7
    {
      match a
      case Command(hasFn, len) => var _ := AsyncCommand(hasFn, len);
      case Disconnect => AsyncDisconnect();
      case Free => AsyncFree();
    }

    /** Shifts the first pending callback, which is about to get `reply`. */
    method Shift(reply: Option<Reply>) returns (ok: bool, cb: Callback)
      requires Valid() && (reply.Some? ==> |answers| == |received|)
      modifies this`answers, this`received, replies.repr
      ensures Queued() && fresh(replies.repr - old(replies.repr))
      ensures ok == (|old(replies.contents)| > 0)
      ensures ok ==>
        && old(replies.contents) == [cb] + replies.contents && calls == Calls(old(answers))
        && answers == old(answers) + [Answer(cb.id, reply, cb.hasFn)]
        && received == if reply.Some? then old(received) + [reply.value] else old(received)
      ensures !ok ==>
        Valid() && |replies.contents| == 0 && answers == old(answers) && received == old(received)
    {
      ok, cb := replies.Shift();
      if ok {
        FirstWaiting(old(replies.contents), cb, replies.contents, |answers|, accepted);
        OneMoreAnswer(answers, received, accepted, reply);
        answers, received :=
          answers + [Answer(cb.id, reply, cb.hasFn)], if reply.Some? then received + [reply.value] else received;
      }
    }

    /** Calls the callback; whatever it calls in turn, the context is still there when it returns. */
    method RunCallback(cb: Callback, reply: Option<Reply>, ghost before: seq<Answer>)
      requires Queued() && !freed && !inCallback
      requires answers == before + [Answer(cb.id, reply, cb.hasFn)] && calls == Calls(before)
      modifies this, replies.repr
      ensures Valid() && !freed && !inCallback && fresh(replies.repr - old(replies.repr))
      ensures answers == old(answers) && received == old(received) && err == old(err)
      ensures Now() == if cb.hasFn then ActedAll(old(Now()), behave(old(ncalls)), |behave(old(ncalls))|) else old(Now())
      ensures ncalls == old(ncalls) + if cb.hasFn then 1 else 0
      ensures acts == old(acts) + if cb.hasFn then behave(old(ncalls)) else []
      decreases if inCallback then 0 else 1, 2
    {
      CallsOneMore(before, Answer(cb.id, reply, cb.hasFn));
      if cb.hasFn {
        calls := calls + [(cb.id, reply)];
        assert calls == Calls(answers);
        CallFn();
      }
    }

    /** The function of a command's callback runs. */
    method CallFn()
      requires Valid() && !freed && !inCallback
      modifies this, replies.repr
      ensures Valid() && !freed && !inCallback && fresh(replies.repr - old(replies.repr))
      ensures answers == old(answers) && received == old(received) && err == old(err)
      ensures Now() == ActedAll(old(Now()), behave(old(ncalls)), |behave(old(ncalls))|) && ncalls == old(ncalls) + 1
      ensures acts == old(acts) + behave(old(ncalls))
      decreases if inCallback then 0 else 1, 1
    {
      ncalls := ncalls + 1;
      Invoke(behave(ncalls - 1));
    }

    /** A function of the user runs, with the flag set that puts off freeing. */
    method Invoke(todo: seq<Action>)
      requires Valid() && !freed && !inCallback
      modifies this, replies.repr
      ensures Valid() && !freed && !inCallback && fresh(replies.repr - old(replies.repr))
      ensures answers == old(answers) && received == old(received) && err == old(err)
      ensures Now() == ActedAll(old(Now()), todo, |todo|) && acts == old(acts) + todo
      ensures ncalls == old(ncalls) && npushes == old(npushes)
      decreases if inCallback then 0 else 1, 0
    {
      inCallback := true;
      RunActions(todo);
      inCallback := false;
    }

    /** The body of a callback. */
    method RunActions(todo: seq<Action>)
      requires Valid() && !freed && inCallback
      modifies this, replies.repr
      ensures Valid() && !freed && inCallback && fresh(replies.repr - old(replies.repr))
      ensures answers == old(answers) && received == old(received) && err == old(err)
      ensures Now() == ActedAll(old(Now()), todo, |todo|) && ncalls == old(ncalls) && npushes == old(npushes)
      ensures acts == old(acts) + todo
      decreases if inCallback then 0 else 1, 8
    {
      ghost var start := Now();
      for i := 0 to |todo|
        invariant Valid() && !freed && inCallback && fresh(replies.repr - old(replies.repr))
        invariant answers == old(answers) && received == old(received) && err == old(err)
        invariant Now() == ActedAll(start, todo, i) && ncalls == old(ncalls) && npushes == old(npushes)
        invariant acts == old(acts) + todo[..i]
      {
        TakeOneMore(todo, i);
        Perform(todo[i]);
      }
      assert todo[..|todo|] == todo;
    }

    /** One round of the loop of `__redisAsyncFree`: the next pending callback is called with NULL. */
    method CallNext() returns (ok: bool)
      requires Valid() && !freed && !inCallback
      requires disconnecting || freeing || |replies.contents| == 0
      modifies this, replies.repr
      ensures Valid() && !freed && !inCallback && fresh(replies.repr - old(replies.repr))
      ensures ok == (old(|answers|) < |accepted|) && |answers| == old(|answers|) + if ok then 1 else 0
      ensures accepted == old(accepted) && received == old(received) && err == old(err)
      ensures ok ==> disconnecting || freeing
      ensures old(disconnecting) ==> disconnecting
      ensures old(freeing) ==> freeing
      ensures old(acts) <= acts
      decreases if inCallback then 0 else 1, 3
    {
      ghost var before := answers;
      var cb;
      ok, cb := Shift(None);
      if ok { RunCallback(cb, None, before); }
    }

    /** `__redisAsyncFree`: every pending callback is called with NULL, then the context is gone. */
    method Teardown()
      requires Valid() && !freed && !inCallback
      requires disconnecting || freeing || |replies.contents| == 0
      modifies this, replies.repr
      ensures Valid() && freed && !inCallback && fresh(replies.repr - old(replies.repr))
      ensures |answers| == |accepted| && accepted == old(accepted) && received == old(received)
      ensures old(disconnecting) ==> disconnecting
      ensures old(freeing) ==> freeing
      ensures old(acts) <= acts && err == old(err)
      decreases if inCallback then 0 else 1, 4
    {
      var more := true;
      while more
        invariant Valid() && !freed && !inCallback && fresh(replies.repr - old(replies.repr))
        invariant disconnecting || freeing || |replies.contents| == 0
        invariant !more ==> |answers| == |accepted|
        invariant accepted == old(accepted) && received == old(received)
        invariant old(disconnecting) ==> disconnecting
        invariant old(freeing) ==> freeing
        invariant old(acts) <= acts && err == old(err)
        decreases more, |accepted| - |answers|
      {
        more := CallNext();
      }
      freed := true;
    }

    /** `__redisAsyncDisconnect`: after a clean disconnect no callback may be pending. */
    method DisconnectNow()
      requires Valid() && !freed && !inCallback
      requires err || |replies.contents| == 0
      modifies this, replies.repr
      ensures Valid() && freed && !inCallback && fresh(replies.repr - old(replies.repr))
      ensures |answers| == |accepted| && accepted == old(accepted) && received == old(received)
      ensures old(disconnecting) ==> disconnecting
      ensures old(acts) <= acts && err == old(err) && (err ==> disconnecting)
      decreases if inCallback then 0 else 1, 5
    {
      copiedErr := err;
      if !copiedErr {
        var ret, _ := replies.Shift();
        assert !ret;
      } else {
        FoldedOneMore(acts, Disconnect);
        disconnecting, acts := true, acts + [Disconnect];
      }
      Teardown();
    }

    /** The callback of the oldest pending command gets its reply; if it has freed the context, that happens now. */
    method GiveReply(cb: Callback, reply: Reply, ghost before: seq<Answer>)
      requires Queued() && !freed && !inCallback && !err && |answers| == |received|
      requires answers == before + [Answer(cb.id, Some(reply), cb.hasFn)] && calls == Calls(before)
      modifies this, replies.repr
      ensures Idle() && fresh(replies.repr - old(replies.repr))
      ensures received == old(received) && old(accepted) <= accepted && old(acts) <= acts && !err
      ensures freed ==> freeing
      ensures freed <==> cb.hasFn && ActedAll(old(Now()), behave(old(ncalls)), |behave(old(ncalls))|).freeing
    {
      RunCallback(cb, Some(reply), before);
      if cb.hasFn && freeing { Teardown(); }
    }

    /**
      `__redisRunPushCallback`: a spontaneous push goes to the push callback, if there is one, and to
      no command. A free that this callback asks for is put off, and not done when it returns.
    */
    method ReceivePush()
      requires Idle() && !freed
      modifies this, replies.repr
      ensures Idle() && !freed && fresh(replies.repr - old(replies.repr))
      ensures answers == old(answers) && received == old(received)
      ensures acts == old(acts) + match onPush case None => [] case Some(push) => push(old(npushes))
      ensures Now() == match onPush
        case None => old(Now())
        case Some(push) => ActedAll(old(Now()), push(old(npushes)), |push(old(npushes))|)
    {
      if onPush.Some? {
        npushes := npushes + 1;
        Invoke(onPush.value(npushes - 1));
      }
    }

    /**
      One reply that is no spontaneous push goes to the oldest pending command. One that nobody asked
      for closes the connection if it is an error; any other fails an assertion of the source and
      aborts the program.
    */
    method Answered(reply: Reply) returns (aborted: bool)
      requires Idle() && !freed
      modifies this, replies.repr
      ensures Idle() && fresh(replies.repr - old(replies.repr)) && old(accepted) <= accepted && old(acts) <= acts
      ensures err ==> old(|answers| == |accepted|) && IsError(reply)
      ensures freed ==> freeing || disconnecting
      ensures old(|answers| < |accepted|) ==> !aborted && received == old(received) + [reply]
      ensures old(|answers| == |accepted|) ==>
        && received == old(received) && accepted == old(accepted)
        && freed == (reply.Text? && reply.kind == ERROR) && aborted == !freed && |answers| == |accepted|
    {
      ghost var before := answers;
      var ok, cb := Shift(Some(reply));
      aborted := !ok && !IsError(reply);
      if ok {
        GiveReply(cb, reply, before);
      } else if IsError(reply) {
        err := true;
        DisconnectNow();
      }
    }

    /** One round of `redisProcessCallbacks`; `done` says whether the reply has been dealt with. */
    method Deliver(reply: Reply) returns (ghost done: bool, aborted: bool)
      requires Idle() && !freed
      modifies this, replies.repr
      ensures Idle() && fresh(replies.repr - old(replies.repr)) && old(accepted) <= accepted && old(acts) <= acts
      ensures err ==> !done && IsError(reply)
      ensures freed ==> freeing || disconnecting
      ensures done == (IsSpontaneous(reply) || old(|answers| < |accepted|))
      ensures received == old(received) + if done && !IsSpontaneous(reply) then [reply] else []
      ensures IsSpontaneous(reply) ==> !freed && answers == old(answers)
      ensures done ==> !aborted
      ensures !done ==> freed == IsError(reply) && aborted == !IsError(reply) && |answers| == |accepted|
    {
      done, aborted := IsSpontaneous(reply) || |answers| < |accepted|, false;
      if IsSpontaneous(reply) { ReceivePush(); } else { aborted := Answered(reply); }
    }

    /**
      `redisProcessCallbacks`: the first `n` replies of the batch are dealt with. It stops early
      only if a callback freed the context, or at a reply nobody asked for.
    */
    method ProcessCallbacks(batch: seq<Reply>, broken: bool) returns (ghost n: nat, aborted: bool)
      requires Idle() && !freed
      modifies this, replies.repr
      ensures Idle() && fresh(replies.repr - old(replies.repr))
      ensures n <= |batch| && received == old(received) + Regular(batch[..n]) && old(accepted) <= accepted
      ensures aborted ==> n < |batch| && !IsError(batch[n]) && !IsSpontaneous(batch[n]) && |answers| == |accepted|
      ensures old(acts) <= acts
      ensures err ==> if n < |batch| then IsError(batch[n]) && !IsSpontaneous(batch[n]) else broken
      ensures freed ==> freeing || disconnecting
      ensures !freed && !aborted ==>
        n == |batch| && !broken && !(disconnecting && obuf == 0 && |answers| == |accepted|)
    {
      n, aborted := 0, false;
      ghost var start, asked := received, accepted;
      var i := 0;
      while i < |batch|
        invariant i <= |batch| && n == i && !aborted && Idle() && !freed && fresh(replies.repr - old(replies.repr))
        invariant received == start + Regular(batch[..n]) && asked <= accepted && old(acts) <= acts && !err
      {
        ghost var done;
        RegularOneMore(start, batch, i);
        done, aborted := Deliver(batch[i]);
        n := if done then n + 1 else n;
        if freed || aborted { return; }
        i := i + 1;
      }
      Finish(broken);
    }

    /** The reader has no more replies, because it ran dry or because it is `broken`. */
    method Finish(broken: bool)
      requires Idle() && !freed
      modifies this, replies.repr
      ensures Idle() && fresh(replies.repr - old(replies.repr))
      ensures received == old(received) && accepted == old(accepted) && old(acts) <= acts && err == broken
      ensures freed ==> disconnecting
      ensures freed <==> broken || old(disconnecting && obuf == 0 && |answers| == |accepted|)
      ensures !freed ==> disconnecting == old(disconnecting) && obuf == old(obuf) && answers == old(answers)
    {
      if broken {
        err := true;
        DisconnectNow();
      } else {
        var empty := replies.IsEmpty();
        if disconnecting && obuf == 0 && empty { DisconnectNow(); }
      }
    }

    /** A call of the program. */
    method Told(a: Action)
      requires Idle() && !freed
      modifies this, replies.repr
      ensures Idle() && fresh(replies.repr - old(replies.repr))
      ensures received == old(received) && accepted == Acted(old(Now()), a).accepted
      ensures old(acts) + [a] <= acts && (!freed ==> acts == old(acts) + [a])
      ensures freed == match a
        case Command(_, _) => false
        case Disconnect => old(|answers|) == |accepted|
        case Free => true
    {
      Perform(a);
    }

    /** Replies have come in. */
    method TakeReplies(batch: seq<Reply>, broken: bool) returns (aborted: bool)
      requires Idle() && !freed
      modifies this, replies.repr
      ensures Idle() && fresh(replies.repr - old(replies.repr)) && old(accepted) <= accepted && old(acts) <= acts
      ensures Kept(old(received), received, Regular(batch), !freed && !aborted)
      ensures broken ==> freed || aborted
      ensures freed ==> freeing || disconnecting
    {
      var n, failed := ProcessCallbacks(batch, broken);
      RegularGrows(batch, n);
      assert batch[..|batch|] == batch;
      aborted := failed;
    }

    /** Bytes have been written. */
    method Written(n: nat)
      requires Idle() && !freed
      modifies this`obuf
      ensures Idle() && obuf == if n < old(obuf) then old(obuf) - n else 0
    {
      obuf := if n < obuf then obuf - n else 0;
    }

    /** The connection is broken. */
    method Fail()
      requires Idle() && !freed
      modifies this, replies.repr
      ensures Idle() && freed && fresh(replies.repr - old(replies.repr))
      ensures received == old(received) && accepted == old(accepted) && old(acts) <= acts
    {
      err := true;
      DisconnectNow();
    }

    /** One event. */
    method Happen(op: Op) returns (aborted: bool)
      requires Idle() && !freed
      modifies this, replies.repr
      ensures Idle() && fresh(replies.repr - old(replies.repr))
      ensures Kept(old(received), received, BroughtBy(op), !freed && !aborted)
      ensures old(accepted) <= accepted && (aborted ==> op.Read?)
      ensures Fatal(op) ==> freed || aborted
      ensures old(acts) + (if op.Call? then [op.a] else []) <= acts
    {
      aborted := false;
      match op
      case Call(a) => Told(a);
      case Read(batch, broken) => aborted := TakeReplies(batch, broken);
      case Write(n) => Written(n);
      case IoError => Fail();
    }

    /** How far a run has come: what was received, and what was called, since it started. */
    ghost predicate Going(start: seq<Reply>, first: seq<bool>, before: seq<Action>, ops: seq<Op>, i: nat, aborted: bool)
      requires i <= |ops|
      reads this, replies, replies.repr
    {
      && Idle() && Kept(start, received, Brought(ops, i), !freed && !aborted)
      && (!freed && !aborted ==> Harmless(ops, i))
      && first <= accepted && before <= acts && Within(Asked(ops, i), acts[|before|..])
    }

    /** One event more. */
    method HappenNext(ghost start: seq<Reply>, ghost first: seq<bool>, ghost before: seq<Action>, ops: seq<Op>, i: nat)
      returns (aborted: bool)
      requires i < |ops| && Going(start, first, before, ops, i, false) && !freed
      modifies this, replies.repr
      ensures Going(start, first, before, ops, i + 1, aborted) && fresh(replies.repr - old(replies.repr))
    {
      ghost var mid, was := received, acts;
      aborted := Happen(ops[i]);
      KeptOn(start, mid, received, Brought(ops, i), BroughtBy(ops[i]), !freed && !aborted);
      AskedNext(ops, i, before, was, acts);
    }

    lemma JustStarted(ops: seq<Op>)
      requires Idle()
      ensures Going(received, accepted, acts, ops, 0, false)
    {
    }

    /** The events from number `i` on, one after the other, until the context is gone. */
    method HappenFrom(ghost start: seq<Reply>, ghost first: seq<bool>, ghost before: seq<Action>, ops: seq<Op>, i: nat)
      returns (ghost n: nat, aborted: bool)
      requires i <= |ops| && Going(start, first, before, ops, i, false) && !freed
      modifies this, replies.repr
      ensures n <= |ops| && Going(start, first, before, ops, n, aborted)
      ensures !freed && !aborted ==> n == |ops|
      decreases |ops| - i
    {
      n, aborted := i, false;
      if i < |ops| {
        aborted := HappenNext(start, first, before, ops, i);
        n := i + 1;
        if !freed && !aborted { n, aborted := HappenFrom(start, first, before, ops, i + 1); }
      }
    }

    /**
      Whatever the program, the callbacks and the server do, in whatever order. No reply is dropped
      while the context is alive; the commands accepted, and the flags, are what all calls made so far
      amount to, and the program's calls of the first `n` events are among them, in order; the run
      stops early only when the context is gone.
    */
    method Run(ops: seq<Op>) returns (ghost n: nat, aborted: bool)
      requires Idle() && !freed
      modifies this, replies.repr
      ensures InOrder(answers, received, accepted) && calls == Calls(answers)
      ensures freed ==> |answers| == |accepted|
      ensures !freed ==> |answers| == |received|
      ensures Kept(old(received), received, Brought(ops, |ops|), !freed && !aborted)
      ensures !freed && !aborted ==> n == |ops| && Harmless(ops, n)
      ensures Now() == Folded(acts) && n <= |ops| && old(acts) <= acts && old(accepted) <= accepted
      ensures Within(Asked(ops, n), acts[|old(acts)|..])
    {
      JustStarted(ops);
      n, aborted := HappenFrom(received, accepted, acts, ops, 0);
      KeptToEnd(old(received), received, ops, n, !freed && !aborted);
    }
  }

  /** Calls come in the order in which their commands were accepted. */
  lemma {:induction false} CallsInOrder(answers: seq<Answer>, received: seq<Reply>, accepted: seq<bool>)
    requires Matched(answers, received, accepted)
    ensures forall c | c in Calls(answers) :: c.0 < |answers|
    ensures forall i, j | 0 <= i < j < |Calls(answers)| :: Calls(answers)[i].0 < Calls(answers)[j].0
  {
    if answers != [] {
      CallsInOrder(answers[..|answers| - 1], received, accepted);
    }
  }

  lemma OneMoreCall<T>(s: seq<T>, one: seq<T>, x: T)
    requires |one| <= 1
    ensures multiset(s + one)[x] == multiset(s)[x] + if one == [x] then 1 else 0
  {
    if |one| == 1 { assert one == [one[0]]; } else { assert s + one == s; }
  }

  /** The callback of an answered command has been called once with the reply that belongs to it. */
  lemma {:induction false} CalledWith(answers: seq<Answer>, received: seq<Reply>, accepted: seq<bool>, k: nat)
    requires Matched(answers, received, accepted) && k < |accepted|
    ensures multiset(Calls(answers))[(k, ReplyTo(k, received))] == if k < |answers| && accepted[k] then 1 else 0
  {
    if answers != [] {
      var before, call := answers[..|answers| - 1], (k, ReplyTo(k, received));
      var a := answers[|answers| - 1];
      var one := if a.hasFn then [(a.id, a.reply)] else [];
      CalledWith(before, received, accepted, k);
      CallsInOrder(before, received, accepted);
      OneMoreCall(Calls(before), one, call);
      assert a == Answer(|before|, ReplyTo(|before|, received), accepted[|before|]);
    }
  }

  lemma {:induction false} NoOtherCall(answers: seq<Answer>, received: seq<Reply>, accepted: seq<bool>, k: nat,
        r: Option<Reply>)
    requires Matched(answers, received, accepted) && r != ReplyTo(k, received)
    ensures (k, r) !in Calls(answers)
  {
    if answers != [] {
      NoOtherCall(answers[..|answers| - 1], received, accepted, k, r);
    }
  }

  /**
    The callback of an answered command has been called exactly once, with the k-th reply or with
    NULL; that of a command without an answer has not been called. So when the context is gone,
    and all commands are answered, every callback has been called once.
  */
  lemma CalledOnce(answers: seq<Answer>, received: seq<Reply>, accepted: seq<bool>, k: nat)
    requires Matched(answers, received, accepted) && k < |accepted|
    ensures multiset(Calls(answers))[(k, ReplyTo(k, received))] == if k < |answers| && accepted[k] then 1 else 0
    ensures forall r | r != ReplyTo(k, received) :: (k, r) !in Calls(answers)
  {
    CalledWith(answers, received, accepted, k);
    forall r | r != ReplyTo(k, received)
      ensures (k, r) !in Calls(answers)
    {
      NoOtherCall(answers, received, accepted, k, r);
    }
  }
}
