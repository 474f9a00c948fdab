/**
  The reader of read.c on values: an explicit stack of half-built aggregates that survives
  partial input. The lemmas relate it to the recursive grammar of module Resp, whatever way
  the stream is cut into feeds.
*/
module Resume {
  import opened Options
  import opened Numbers
  import opened Resp

  /** A half-built aggregate: its type, how many elements it needs and those it already has. */
  datatype Frame = Frame(kind: Kind, n: nat, got: seq<Reply>)

  /**
    A reader between two steps. `frames` is the task stack below the current item, `kind` is the
    type byte of the current item if it has been read, `rest` the bytes not yet consumed.
  */
  datatype State = State(err: Option<Error>, frames: seq<Frame>, kind: Option<Kind>, rest: string)

  const START := State(None, [], None, "")

  predicate GoodFrames(frames: seq<Frame>) {
    forall i | 0 <= i < |frames| :: |frames[i].got| < frames[i].n && IsAggregate(frames[i].kind)
  }

  function Parent(frames: seq<Frame>): Option<Kind> {
    if frames == [] then None else Some(frames[|frames| - 1].kind)
  }

  /** What one pass through `processItem` does. */
  datatype Step = Again(st: State) | Emit(reply: Reply, rest: string) | Starved(st: State) | Failed(error: Error)

  /** `moveToNextTask`: a finished item goes into its parent, and closes it when it was the last. */
  function Place(frames: seq<Frame>, r: Reply, rest: string): (s: Step)
    requires GoodFrames(frames)
    ensures s.Again? || s.Emit?
    ensures s.Again? ==> s.st.err.None? && s.st.kind.None? && s.st.rest == rest && GoodFrames(s.st.frames)
    ensures s.Emit? ==> s.rest == rest
  {
    if frames == [] then Emit(r, rest)
    else
      var below, top := frames[..|frames| - 1], frames[|frames| - 1];
      var got := top.got + [r];
      if |got| == top.n then Place(below, Agg(top.kind, got), rest)
      else Again(State(None, below + [top.(got := got)], None, rest))
  }

  function ItemStep(cfg: Config, st: State): (s: Step)
    requires st.err.None? && GoodFrames(st.frames)
    ensures s.Again? ==> s.st.err.None? && GoodFrames(s.st.frames) && |s.st.rest| < |st.rest|
    ensures s.Emit? ==> |s.rest| < |st.rest|
    ensures s.Starved? ==> s.st.err.None? && s.st.frames == st.frames
  {
    if st.kind.Some? then TypedStep(cfg, st)
    else if st.rest == "" then Starved(st)
    else
      var k := TypeOf(cfg, st.rest[0]);
      if k.None? then Failed(TypeByte(st.rest[0]))
      else TypedStep(cfg, st.(kind := k, rest := st.rest[1..]))
  }

  /** An aggregate whose opening line is known: nil, empty, or a new frame. */
  function ElementsStep(frames: seq<Frame>, k: Kind, n: Option<nat>, rest: string): (s: Step)
    requires GoodFrames(frames) && IsAggregate(k)
    ensures s.Again? || s.Emit?
    ensures s.Again? ==> s.st.err.None? && s.st.kind.None? && s.st.rest == rest && GoodFrames(s.st.frames)
    ensures s.Emit? ==> s.rest == rest
  {
    match n
    case None => Place(frames, Nil, rest)
    case Some(m) =>
      if m == 0 then Place(frames, Agg(k, []), rest)
      else Again(State(None, frames + [Frame(k, m, [])], None, rest))
  }

  function TypedStep(cfg: Config, st: State): (s: Step)
    requires st.err.None? && GoodFrames(st.frames) && st.kind.Some?
    ensures s.Again? ==> s.st.err.None? && GoodFrames(s.st.frames) && |s.st.rest| < |st.rest|
    ensures s.Emit? ==> |s.rest| < |st.rest|
    ensures s.Starved? ==> s.st == st
  {
    var k := st.kind.value;
    if IsAggregate(k) then
      match Header(cfg, |st.frames|, k, st.rest)
      case More => Starved(st)
      case Bad(e) => Failed(e)
      case Done(n, rest) => ElementsStep(st.frames, k, n, rest)
    else
      match if IsLine(k) then ParseLine(cfg, Parent(st.frames), k, st.rest) else ParseBulk(k, st.rest)
      case More => Starved(st)
      case Bad(e) => Failed(e)
      case Done(r, rest) => Place(st.frames, r, rest)
  }

  /** The object of a finished line, or the error it is rejected with. */
  function LineStep(frames: seq<Frame>, o: Outcome<Reply>, rest: string): Step
    requires GoodFrames(frames) && !o.More?
  {
    match o
    case Bad(e) => Failed(e)
    case Done(r, _) => Place(frames, r, rest)
  }

  lemma TypedLineStep(cfg: Config, st: State)
    requires st.err.None? && GoodFrames(st.frames) && st.kind.Some? && IsLine(st.kind.value)
    ensures var n := Newline(st.rest);
      TypedStep(cfg, st) ==
      if n.None? then Starved(st)
      else LineStep(st.frames, LineReply(cfg, Parent(st.frames), st.kind.value, st.rest[..n.value]),
        st.rest[n.value + 2..])
  {
  }

  lemma TypedBulkStep(cfg: Config, st: State)
    requires st.err.None? && GoodFrames(st.frames) && st.kind.Some? && IsBulk(st.kind.value)
    ensures TypedStep(cfg, st) ==
      match ParseBulk(st.kind.value, st.rest)
      case More => Starved(st)
      case Bad(e) => Failed(e)
      case Done(r, rest) => Place(st.frames, r, rest)
  {
  }

  lemma TypedAggregateStep(cfg: Config, st: State)
    requires st.err.None? && GoodFrames(st.frames) && st.kind.Some? && IsAggregate(st.kind.value)
    ensures TypedStep(cfg, st) ==
      if TooDeepNow(cfg, st) then Failed(TooDeep)
      else match HeaderLine(cfg, st.kind.value, st.rest)
        case More => Starved(st)
        case Bad(e) => Failed(e)
        case Done(n, rest) => ElementsStep(st.frames, st.kind.value, n, rest)
  {
  }

  /** The older reader rejects an aggregate that is too deep as soon as it has seen its type byte. */
  predicate TooDeepNow(cfg: Config, st: State) {
    cfg.dialect.FixedStack? && |st.frames| == FIXED_STACK_SIZE - 1 && st.kind.Some? && IsAggregate(st.kind.value)
  }

  lemma StarvedIsNotTooDeep(cfg: Config, st: State)
    requires st.err.None? && GoodFrames(st.frames) && ItemStep(cfg, st).Starved?
    ensures !TooDeepNow(cfg, ItemStep(cfg, st).st)
  {
  }

  lemma EmptyStarves(cfg: Config, st: State)
    requires GoodFrames(st.frames) && st.rest == "" && !TooDeepNow(cfg, st)
    ensures Get(cfg, st) == (st, None)
  {
  }

  /** `__redisReaderSetError`: the buffer and the stack are gone for good. */
  function Broken(e: Error): State {
    State(Some(e), [], None, "")
  }

  /** `redisReaderGetReply`: process items until a reply is complete, bytes run out, or an error. */
  function Get(cfg: Config, st: State): (p: (State, Option<Reply>))
    requires GoodFrames(st.frames)
    ensures GoodFrames(p.0.frames)
    decreases |st.rest|
  {
    if st.err.Some? then (st, None)
    else match ItemStep(cfg, st)
      case Again(st') => Get(cfg, st')
      case Emit(r, rest) => (State(None, [], None, rest), Some(r))
      case Starved(st') => (st', None)
      case Failed(e) => (Broken(e), None)
  }

  /** `redisReaderFeed`. */
  function Feed(st: State, chunk: string): State {
    if st.err.Some? then st else st.(rest := st.rest + chunk)
  }

  // -------------------------------------------------- what a state still means

  /** The grammar's answer for the item in progress, carried up through the half-built aggregates. */
  function Climb(cfg: Config, frames: seq<Frame>, o: Outcome<Reply>): Outcome<Reply>
    requires GoodFrames(frames)
    decreases |frames|
  {
    if frames == [] || !o.Done? then o
    else
      var below, top := frames[..|frames| - 1], frames[|frames| - 1];
      match ParseItems(cfg, |frames|, top.kind, top.n - |top.got| - 1, o.rest)
      case More => More
      case Bad(e) => Bad(e)
      case Done(es, rest) => Climb(cfg, below, Done(Agg(top.kind, top.got + [o.value] + es), rest))
  }

  function Current(cfg: Config, st: State): Outcome<Reply> {
    if st.kind.None? then ParseItem(cfg, |st.frames|, Parent(st.frames), st.rest)
    else ParseTyped(cfg, |st.frames|, Parent(st.frames), st.kind.value, st.rest)
  }

  function Follow(cfg: Config, o: Outcome<Reply>): Parsed {
    match o
    case More => Parsed([], Dry)
    case Bad(e) => Parsed([], Fail(e))
    case Done(r, rest) => Prepend([r], ParseAll(cfg, rest))
  }

  /** All that a reader in state `st` will still deliver if `f` is what the stream goes on with. */
  function Future(cfg: Config, st: State, f: string): Parsed
    requires GoodFrames(st.frames)
  {
    match st.err
    case Some(e) => Parsed([], Fail(e))
    case None => Follow(cfg, Climb(cfg, st.frames, Current(cfg, st.(rest := st.rest + f))))
  }

  lemma FutureOfStart(cfg: Config, s: string, f: string)
    ensures Future(cfg, State(None, [], None, s), f) == ParseAll(cfg, s + f)
  {
  }

  lemma {:induction false} PlaceMeaning(cfg: Config, frames: seq<Frame>, r: Reply, rest: string)
    requires GoodFrames(frames)
    ensures var full := Climb(cfg, frames, Done(r, rest));
      match Place(frames, r, rest)
      case Again(st) => full == Climb(cfg, st.frames, Current(cfg, st))
      case Emit(r', rest') => full == Done(r', rest')
      case _ => false
    decreases |frames|
  {
    if frames != [] {
      var below, top := frames[..|frames| - 1], frames[|frames| - 1];
      var got := top.got + [r];
      if |got| == top.n {
        assert got + [] == got;
        PlaceMeaning(cfg, below, Agg(top.kind, got), rest);
      } else {
        ClimbNext(cfg, below, top.(got := got), rest);
      }
    }
  }

  /** What the grammar makes of an open aggregate whose next item starts at `rest`. */
  function Complete(cfg: Config, depth: nat, f: Frame, rest: string): Outcome<Reply>
    requires |f.got| <= f.n
  {
    match ParseItems(cfg, depth, f.kind, f.n - |f.got|, rest)
    case More => More
    case Bad(e) => Bad(e)
    case Done(es, rest') => Done(Agg(f.kind, f.got + es), rest')
  }

  lemma ClimbNext(cfg: Config, below: seq<Frame>, f: Frame, rest: string)
    requires GoodFrames(below + [f])
    ensures GoodFrames(below)
    ensures var frames := below + [f];
      Climb(cfg, frames, ParseItem(cfg, |frames|, Parent(frames), rest)) ==
        Climb(cfg, below, Complete(cfg, |frames|, f, rest))
  {
    var frames := below + [f];
    assert frames[..|frames| - 1] == below && frames[|frames| - 1] == f;
    var o := ParseItem(cfg, |frames|, Some(f.kind), rest);
    if o.Done? {
      var oo := ParseItems(cfg, |frames|, f.kind, f.n - |f.got| - 1, o.rest);
      if oo.Done? {
        assert f.got + ([o.value] + oo.value) == f.got + [o.value] + oo.value;
      }
    }
  }

  /** A complete item does not change when more bytes arrive behind it. */
  lemma LineStable(cfg: Config, parent: Option<Kind>, k: Kind, s: string, f: string)
    requires !ParseLine(cfg, parent, k, s).More?
    ensures ParseLine(cfg, parent, k, s + f) == Extend(ParseLine(cfg, parent, k, s), f)
  {
    NewlineStable(s, f);
    var n := Newline(s).value;
    assert (s + f)[..n] == s[..n] && (s + f)[n + 2..] == s[n + 2..] + f;
  }

  lemma BulkBodyStable(k: Kind, len: int, s: string, first: nat, f: string)
    requires first <= |s| && !BulkBody(k, len, s, first).More?
    ensures BulkBody(k, len, s + f, first) == Extend(BulkBody(k, len, s, first), f)
  {
    if len == -1 {
      assert (s + f)[first..] == s[first..] + f;
    } else if len >= 0 {
      assert (s + f)[first..first + len] == s[first..first + len];
      assert (s + f)[first + len + 2..] == s[first + len + 2..] + f;
    }
  }

  lemma BulkStable(k: Kind, s: string, f: string)
    requires !ParseBulk(k, s).More?
    ensures ParseBulk(k, s + f) == Extend(ParseBulk(k, s), f)
  {
    NewlineStable(s, f);
    var n := Newline(s).value;
    assert (s + f)[..n] == s[..n];
    if Number(s[..n]).Some? {
      BulkBodyStable(k, Number(s[..n]).value, s, n + 2, f);
    }
  }

  lemma HeaderLineStable(cfg: Config, k: Kind, s: string, f: string)
    requires !HeaderLine(cfg, k, s).More?
    ensures HeaderLine(cfg, k, s + f) == Extend(HeaderLine(cfg, k, s), f)
  {
    NewlineStable(s, f);
    var n := Newline(s).value;
    assert (s + f)[..n] == s[..n] && (s + f)[n + 2..] == s[n + 2..] + f;
  }

  lemma HeaderStable(cfg: Config, depth: nat, k: Kind, s: string, f: string)
    requires !Header(cfg, depth, k, s).More?
    ensures Header(cfg, depth, k, s + f) == Extend(Header(cfg, depth, k, s), f)
  {
    if !HeaderLine(cfg, k, s).More? {
      HeaderLineStable(cfg, k, s, f);
    }
  }

  function Extend<T>(o: Outcome<T>, f: string): Outcome<T> {
    match o case Done(v, rest) => Done(v, rest + f) case other => other
  }

  function Shift(s: Step, f: string): Step {
    match s
    case Again(st) => Again(st.(rest := st.rest + f))
    case Emit(r, rest) => Emit(r, rest + f)
    case other => other
  }

  lemma {:induction false} PlaceShift(frames: seq<Frame>, r: Reply, rest: string, f: string)
    requires GoodFrames(frames)
    ensures Place(frames, r, rest + f) == Shift(Place(frames, r, rest), f)
    decreases |frames|
  {
    if frames != [] {
      var top := frames[|frames| - 1];
      PlaceShift(frames[..|frames| - 1], Agg(top.kind, top.got + [r]), rest, f);
    }
  }

  /** A step preserves the meaning of the state, whatever the stream goes on with. */
  ghost predicate Keeps(cfg: Config, full: Outcome<Reply>, s: Step, f: string) {
    match s
    case Again(st) => GoodFrames(st.frames) && full == Climb(cfg, st.frames, Current(cfg, st.(rest := st.rest + f)))
    case Emit(r, rest) => full == Done(r, rest + f)
    case Starved(st) =>
      && GoodFrames(st.frames) && full == Climb(cfg, st.frames, Current(cfg, st.(rest := st.rest + f)))
      && (f == "" ==> full == More)
    case Failed(e) => full == Bad(e)
  }

  lemma PlaceKeeps(cfg: Config, frames: seq<Frame>, r: Reply, rest: string, f: string)
    requires GoodFrames(frames)
    ensures Keeps(cfg, Climb(cfg, frames, Done(r, rest + f)), Place(frames, r, rest), f)
  {
    PlaceShift(frames, r, rest, f);
    PlaceMeaning(cfg, frames, r, rest + f);
  }

  lemma ScalarKeeps(cfg: Config, st: State, f: string)
    requires st.err.None? && GoodFrames(st.frames) && st.kind.Some? && !IsAggregate(st.kind.value)
    ensures Keeps(cfg, Climb(cfg, st.frames, Current(cfg, st.(rest := st.rest + f))), TypedStep(cfg, st), f)
  {
    var k := st.kind.value;
    var o := if IsLine(k) then ParseLine(cfg, Parent(st.frames), k, st.rest) else ParseBulk(k, st.rest);
    assert Current(cfg, st.(rest := st.rest + f))
        == if IsLine(k) then ParseLine(cfg, Parent(st.frames), k, st.rest + f) else ParseBulk(k, st.rest + f);
    if o.More? {
      assert st.rest + "" == st.rest;
    } else {
      if IsLine(k) {
        LineStable(cfg, Parent(st.frames), k, st.rest, f);
      } else {
        BulkStable(k, st.rest, f);
      }
      if o.Done? {
        PlaceKeeps(cfg, st.frames, o.value, o.rest, f);
      }
    }
  }

  /** What the grammar makes of an aggregate of type `k` once its opening line is known. */
  function AfterHeader(cfg: Config, depth: nat, k: Kind, o: Outcome<Option<nat>>): Outcome<Reply> {
    match o
    case More => More
    case Bad(e) => Bad(e)
    case Done(None, rest) => Done(Nil, rest)
    case Done(Some(n), rest) => Complete(cfg, depth + 1, Frame(k, n, []), rest)
  }

  lemma TypedIsAfterHeader(cfg: Config, depth: nat, parent: Option<Kind>, k: Kind, s: string)
    requires IsAggregate(k)
    ensures ParseTyped(cfg, depth, parent, k, s) == AfterHeader(cfg, depth, k, Header(cfg, depth, k, s))
  {
    var h := Header(cfg, depth, k, s);
    if h.Done? && h.value.Some? {
      var o := ParseItems(cfg, depth + 1, k, h.value.value, h.rest);
      if o.Done? {
        assert [] + o.value == o.value;
      }
    }
  }

  lemma HeaderKeeps(cfg: Config, st: State, k: Kind, n: Option<nat>, rest: string, f: string)
    requires GoodFrames(st.frames) && IsAggregate(k)
    ensures Keeps(cfg, Climb(cfg, st.frames, AfterHeader(cfg, |st.frames|, k, Done(n, rest + f))),
                  ElementsStep(st.frames, k, n, rest), f)
  {
    if n.None? {
      PlaceKeeps(cfg, st.frames, Nil, rest, f);
    } else if n.value == 0 {
      var none: seq<Reply> := [];
      assert none + none == none;
      assert Complete(cfg, |st.frames| + 1, Frame(k, 0, none), rest + f) == Done(Agg(k, none), rest + f);
      PlaceKeeps(cfg, st.frames, Agg(k, []), rest, f);
    } else {
      ClimbNext(cfg, st.frames, Frame(k, n.value, []), rest + f);
    }
  }

  lemma AggregateKeeps(cfg: Config, st: State, f: string)
    requires st.err.None? && GoodFrames(st.frames) && st.kind.Some? && IsAggregate(st.kind.value)
    ensures Keeps(cfg, Climb(cfg, st.frames, Current(cfg, st.(rest := st.rest + f))), TypedStep(cfg, st), f)
  {
    var k, depth := st.kind.value, |st.frames|;
    var o := Header(cfg, depth, k, st.rest);
    TypedIsAfterHeader(cfg, depth, Parent(st.frames), k, st.rest + f);
    if o.More? {
      assert st.rest + "" == st.rest;
    } else {
      HeaderStable(cfg, depth, k, st.rest, f);
      if o.Done? {
        HeaderKeeps(cfg, st, k, o.value, o.rest, f);
      }
    }
  }

  lemma ItemKeeps(cfg: Config, st: State, f: string)
    requires st.err.None? && GoodFrames(st.frames)
    ensures Keeps(cfg, Climb(cfg, st.frames, Current(cfg, st.(rest := st.rest + f))), ItemStep(cfg, st), f)
  {
    if st.kind.Some? {
      TypedKeeps(cfg, st, f);
    } else if st.rest == "" {
      assert st.rest + "" == "";
    } else {
      var k := TypeOf(cfg, st.rest[0]);
      assert (st.rest + f)[0] == st.rest[0] && (st.rest + f)[1..] == st.rest[1..] + f;
      if k.Some? {
        TypedKeeps(cfg, st.(kind := k, rest := st.rest[1..]), f);
      }
    }
  }

  lemma TypedKeeps(cfg: Config, st: State, f: string)
    requires st.err.None? && GoodFrames(st.frames) && st.kind.Some?
    ensures Keeps(cfg, Climb(cfg, st.frames, Current(cfg, st.(rest := st.rest + f))), TypedStep(cfg, st), f)
  {
    if IsAggregate(st.kind.value) {
      AggregateKeeps(cfg, st, f);
    } else {
      ScalarKeeps(cfg, st, f);
    }
  }

  /**
    One call of `redisReaderGetReply` delivers the next reply the stream means and leaves a state
    that means the rest, for every continuation `f`. A call that delivers nothing and reports no
    error has nothing left to deliver.
  */
  lemma {:induction false} GetMeaning(cfg: Config, st: State, f: string)
    requires GoodFrames(st.frames)
    ensures var (st', r) := Get(cfg, st);
      && Future(cfg, st, f) == Prepend(if r.Some? then [r.value] else [], Future(cfg, st', f))
      && (r.None? ==> Future(cfg, st', "") == Parsed([], if st'.err.Some? then Fail(st'.err.value) else Dry))
    decreases |st.rest|
  {
    if st.err.None? {
      ItemKeeps(cfg, st, f);
      match ItemStep(cfg, st) {
        case Again(st') => GetMeaning(cfg, st', f);
        case Starved(st') => ItemKeeps(cfg, st, "");
        case _ =>
      }
    }
  }

  // ------------------------------------------------------- runs of the reader

  /** What a client does: hand over the next bytes, or ask for a reply. */
  datatype Op = Give(chunk: string) | Ask

  /** The bytes handed over in a run. */
  function Stream(ops: seq<Op>): string {
    if ops == [] then ""
    else Stream(ops[..|ops| - 1]) + match ops[|ops| - 1] case Give(c) => c case Ask => ""
  }

  /** One operation: the new state, and the reply handed out, if any. */
  function Perform(cfg: Config, st: State, op: Op): (p: (State, seq<Reply>))
    requires GoodFrames(st.frames)
    ensures GoodFrames(p.0.frames)
  {
    match op
    case Give(c) => (Feed(st, c), [])
    case Ask =>
      var (st', r) := Get(cfg, st);
      (st', if r.Some? then [r.value] else [])
  }

  /** The state of a fresh reader after a run, and the replies it handed out. */
  function Run(cfg: Config, ops: seq<Op>): (p: (State, seq<Reply>))
    ensures GoodFrames(p.0.frames)
  {
    if ops == [] then (START, [])
    else
      var (st, out) := Run(cfg, ops[..|ops| - 1]);
      var (st', more) := Perform(cfg, st, ops[|ops| - 1]);
      (st', out + more)
  }

  lemma FeedMeaning(cfg: Config, st: State, c: string, f: string)
    requires GoodFrames(st.frames)
    ensures Future(cfg, Feed(st, c), f) == Future(cfg, st, c + f)
  {
    assert st.rest + c + f == st.rest + (c + f);
  }

  /**
    At every moment of every run, the replies handed out so far and what the state still means
    add up to the meaning of the whole stream, whatever is fed later.
  */
  lemma {:induction false} RunMeaning(cfg: Config, ops: seq<Op>, f: string)
    ensures var (st, out) := Run(cfg, ops);
      ParseAll(cfg, Stream(ops) + f) == Prepend(out, Future(cfg, st, f))
  {
    if ops == [] {
      FutureOfStart(cfg, "", f);
    } else {
      var before := ops[..|ops| - 1];
      var (st, out) := Run(cfg, before);
      match ops[|ops| - 1] {
        case Give(c) =>
          RunMeaning(cfg, before, c + f);
          FeedMeaning(cfg, st, c, f);
          assert Stream(ops) + f == Stream(before) + (c + f);
          assert out + [] == out;
        case Ask =>
          RunMeaning(cfg, before, f);
          GetMeaning(cfg, st, f);
          assert Stream(ops) == Stream(before);
          PrependPrepend(out, Perform(cfg, st, Ask).1, Future(cfg, Get(cfg, st).0, f));
      }
    }
  }

  lemma PrependPrepend(out: seq<Reply>, more: seq<Reply>, p: Parsed)
    ensures Prepend(out, Prepend(more, p)) == Prepend(out + more, p)
  {
    assert out + (more + p.replies) == out + more + p.replies;
  }

  /** How a state ends a stream. */
  function EndOf(st: State): End {
    if st.err.Some? then Fail(st.err.value) else Dry
  }

  /** The last thing the client did was to ask, and it got nothing. */
  ghost predicate Drained(cfg: Config, ops: seq<Op>) {
    && ops != [] && ops[|ops| - 1] == Ask
    && Run(cfg, ops).1 == Run(cfg, ops[..|ops| - 1]).1
  }

  /**
    Chunking independence: however a stream is cut into feeds and however often replies were asked
    for in between, a drained reader has handed out exactly the replies of the recursive grammar
    on the whole stream, and is in error exactly when the grammar rejects it, with the same error.
  */
  lemma ChunkingIndependence(cfg: Config, ops: seq<Op>)
    requires Drained(cfg, ops)
    ensures ParseAll(cfg, Stream(ops)) == Parsed(Run(cfg, ops).1, EndOf(Run(cfg, ops).0))
  {
    var (st, out) := Run(cfg, ops[..|ops| - 1]);
    var (st', r) := Get(cfg, st);
    assert r.None? by {
      assert r.Some? ==> |Run(cfg, ops).1| == |out| + 1;
    }
    GetMeaning(cfg, st, "");
    RunMeaning(cfg, ops, "");
    assert Stream(ops) + "" == Stream(ops);
    assert out + [] == out;
  }

  /** Two drained readers that were fed the same bytes cannot be told apart. */
  lemma SameStreamSameReplies(cfg: Config, ops: seq<Op>, ops': seq<Op>)
    requires Drained(cfg, ops) && Drained(cfg, ops') && Stream(ops) == Stream(ops')
    ensures Run(cfg, ops).1 == Run(cfg, ops').1
    ensures EndOf(Run(cfg, ops).0) == EndOf(Run(cfg, ops').0)
  {
    ChunkingIndependence(cfg, ops);
    ChunkingIndependence(cfg, ops');
  }

  /** Even before it is drained, a reader only hands out replies the whole stream will have. */
  lemma NeverAhead(cfg: Config, ops: seq<Op>, f: string)
    ensures Run(cfg, ops).1 <= ParseAll(cfg, Stream(ops) + f).replies
    ensures Run(cfg, ops).0.err.Some? ==>
      ParseAll(cfg, Stream(ops) + f) == Parsed(Run(cfg, ops).1, EndOf(Run(cfg, ops).0))
  {
    RunMeaning(cfg, ops, f);
    assert Run(cfg, ops).1 + [] == Run(cfg, ops).1;
  }
}
