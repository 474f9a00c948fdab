/**
  The pipe of ypipe.hpp on top of the chunked queue of yqueue.hpp: one writer and one reader that
  take one step at a time. A step is one access to memory that both threads can reach. Pointers
  are real addresses in chunks that are allocated, linked, recycled and freed; the last components
  of the state only observe.
*/
module YPipe {
  import opened Options

  /** A slot of a chunk. */
  datatype Addr = Addr(chunk: nat, pos: nat)

  /** Memory the two threads share: slots, links, the set of allocated chunks, the spare chunk. */
  datatype Mem<T> = Mem(vals: map<Addr, T>, next: map<nat, nat>, prev: map<nat, nat>, alive: set<nat>,
    spare: Option<nat>)

  datatype WriterPhase<T> =
    | WIdle
    | WStore(v: T, incomplete: bool)
    | WPush(incomplete: bool)
    | WXchg(incomplete: bool)
    | WLink(incomplete: bool, sc: Option<nat>)
    | WCas
    | WSet

  datatype ReaderPhase =
    | RIdle
    | RCas(take: bool)
    | RTake
    | RPop
    | RSwap(o: nat)
    | RFree(cs: Option<nat>)

  /**
    `back`, `end`, `w` and `f` belong to the writer, `begin` and `r` to the reader, `c` to both.
    Observers: `chunks` are the chunks of the chain since the beginning, in order; `front`, `last`,
    `wp`, `fp` and `rp` are the positions in the stream of items that the pointers stand for;
    `sent` are the items written, `got` those read; `asleep` says that the reader found nothing
    and no flush has come since.
  */
  datatype Pipe<T> = Pipe(
    n: nat, mem: Mem<T>, c: Option<Addr>,
    wphase: WriterPhase<T>, back: Addr, end: Addr, w: Addr, f: Addr,
    rphase: ReaderPhase, begin: Addr, r: Option<Addr>,
    chunks: seq<nat>, front: nat, last: nat, wp: nat, fp: nat, rp: Option<nat>,
    sent: seq<T>, got: seq<T>, asleep: bool)

  // -------------------------------------------------------------- positions

  /** The chunk number and the slot of a position in the stream. */
  function Coord(n: nat, p: nat): (c: (nat, nat))
    requires n > 0
    ensures c.1 < n
  {
    if p == 0 then (0, 0)
    else
      var (k, o) := Coord(n, p - 1);
      if o + 1 == n then (k + 1, 0) else (k, o + 1)
  }

  lemma {:induction false} CoordGrows(n: nat, p: nat, q: nat)
    requires n > 0 && p < q
    ensures Coord(n, p).0 <= Coord(n, q).0
    ensures Coord(n, p).0 == Coord(n, q).0 ==> Coord(n, p).1 < Coord(n, q).1
  {
    if p + 1 < q {
      CoordGrows(n, p, q - 1);
    }
  }

  function AddrAt(n: nat, chunks: seq<nat>, p: nat): Addr
    requires n > 0 && Coord(n, p).0 < |chunks|
  {
    Addr(chunks[Coord(n, p).0], Coord(n, p).1)
  }

  function AsBag(o: Option<nat>): multiset<nat> {
    if o.Some? then multiset{o.value} else multiset{}
  }

  // ------------------------------------------------------------------ steps

  /** What an idle thread does next; `id` is the chunk `malloc` would return. */
  datatype Call<T> =
    | Write(v: T, incomplete: bool) | Unwrite | Flush
    | Read | Check
    | Writing(id: nat) | Reading

  predicate ByWriter<T>(call: Call<T>) {
    call.Write? || call.Unwrite? || call.Flush? || call.Writing?
  }

  /** The call fits the phase of its thread, and `malloc` returns a chunk that is not in use. */
  predicate Fits<T>(s: Pipe<T>, call: Call<T>) {
    match call
    case Read => s.rphase.RIdle?
    case Check => s.rphase.RIdle?
    case Reading => !s.rphase.RIdle?
    case Writing(id) => !s.wphase.WIdle? && id !in s.mem.alive
    case _ => s.wphase.WIdle?
  }

  /** Every chunk and link the call touches is there. */
  predicate Safe<T>(s: Pipe<T>, call: Call<T>) {
    && s.n > 0
    && match call
       case Reading => ReaderSafe(s)
       case Writing(_) => WriterSafe(s)
       case Unwrite => s.f != s.back ==> UnpushSafe(s)
       case _ => true
  }

  predicate UnpushSafe<T>(s: Pipe<T>) {
    && s.n > 0
    && s.back.chunk in s.mem.alive && s.end.chunk in s.mem.alive
    && (s.back.pos == 0 ==> s.back.chunk in s.mem.prev && s.mem.prev[s.back.chunk] in s.mem.alive)
    && (s.end.pos == 0 ==>
          && s.end.chunk in s.mem.prev && s.mem.prev[s.end.chunk] in s.mem.alive
          && s.mem.prev[s.end.chunk] in s.mem.next && s.mem.next[s.mem.prev[s.end.chunk]] in s.mem.alive)
  }

  predicate WriterSafe<T>(s: Pipe<T>) {
    match s.wphase
    case WStore(_, _) => s.back.chunk in s.mem.alive && s.back.pos < s.n
    case WLink(_, sc) => s.end.chunk in s.mem.alive && (sc.Some? ==> sc.value in s.mem.alive)
    case _ => true
  }

  predicate ReaderSafe<T>(s: Pipe<T>) {
    match s.rphase
    case RTake => s.begin.chunk in s.mem.alive && s.begin in s.mem.vals
    case RPop =>
      s.begin.pos + 1 == s.n ==>
        s.begin.chunk in s.mem.alive && s.begin.chunk in s.mem.next && s.mem.next[s.begin.chunk] in s.mem.alive
    case RFree(cs) => cs.Some? ==> cs.value in s.mem.alive
    case _ => true
  }

  /** The chunk is linked behind the last one. */
  function Attach<T>(s: Pipe<T>, chunk: nat): Pipe<T> {
    s.(mem := s.mem.(alive := s.mem.alive + {chunk},
                     next := s.mem.next[s.end.chunk := chunk],
                     prev := s.mem.prev[chunk := s.end.chunk]),
       end := Addr(chunk, 0), chunks := s.chunks + [chunk])
  }

  /** The end of `write`: the flush pointer moves if the item is complete. */
  function Mark<T>(s: Pipe<T>, incomplete: bool): Pipe<T> {
    if incomplete then s.(wphase := WIdle)
    else s.(wphase := WIdle, f := s.back, fp := s.last)
  }

  function Next<T>(s: Pipe<T>, call: Call<T>): Pipe<T>
    requires Fits(s, call) && Safe(s, call)
  {
    match call
    case Write(v, incomplete) => s.(wphase := WStore(v, incomplete))
    case Flush => if s.w == s.f then s else s.(wphase := WCas)
    case Unwrite => if s.f == s.back then s else Unpush(s)
    case Writing(id) => WriterStep(s, id)
    case Read => Look(s, true)
    case Check => Look(s, false)
    case Reading => ReaderStep(s)
  }

  /** The writer inside `write` or `flush`. */
  function WriterStep<T>(s: Pipe<T>, id: nat): Pipe<T>
    requires s.n > 0 && !s.wphase.WIdle? && WriterSafe(s)
  {
    match s.wphase
    case WStore(v, incomplete) =>
      s.(mem := s.mem.(vals := s.mem.vals[s.back := v]), wphase := WPush(incomplete), sent := s.sent + [v])
    case WPush(incomplete) =>
      var s' := s.(back := s.end, end := s.end.(pos := s.end.pos + 1), last := s.last + 1);
      if s'.end.pos != s.n then Mark(s', incomplete) else s'.(wphase := WXchg(incomplete))
    case WXchg(incomplete) =>
      s.(mem := s.mem.(spare := None), wphase := WLink(incomplete, s.mem.spare))
    case WLink(incomplete, sc) =>
      var chunk := if sc.Some? then sc.value else id;
      Mark(Attach(s, chunk), incomplete)
    case WCas =>
      if s.c == Some(s.w) then s.(c := Some(s.f), w := s.f, wp := s.fp, wphase := WIdle)
      else s.(wphase := WSet)
    case WSet =>
      s.(c := Some(s.f), w := s.f, wp := s.fp, wphase := WIdle, asleep := false)
  }

  /** `unpush`: only the writer touches the last chunk. */
  function Unpush<T>(s: Pipe<T>): Pipe<T>
    requires UnpushSafe(s)
  {
    var back := if s.back.pos > 0 then s.back.(pos := s.back.pos - 1) else Addr(s.mem.prev[s.back.chunk], s.n - 1);
    var s' := s.(back := back, last := if s.last > 0 then s.last - 1 else 0,
                 sent := if s.sent != [] then s.sent[..|s.sent| - 1] else s.sent);
    if s.end.pos > 0 then s'.(end := s.end.(pos := s.end.pos - 1))
    else
      var before := s.mem.prev[s.end.chunk];
      s'.(end := Addr(before, s.n - 1),
          mem := s.mem.(alive := s.mem.alive - {s.mem.next[before]}, next := s.mem.next - {before}),
          chunks := if s.chunks != [] then s.chunks[..|s.chunks| - 1] else s.chunks)
  }

  /** The first test of `check_read`. */
  function Look<T>(s: Pipe<T>, take: bool): Pipe<T> {
    if s.r.Some? && s.r != Some(s.begin) then s.(rphase := if take then RTake else RIdle)
    else s.(rphase := RCas(take))
  }

  /** The reader inside `check_read` or `read`. */
  function ReaderStep<T>(s: Pipe<T>): Pipe<T>
    requires s.n > 0 && !s.rphase.RIdle? && ReaderSafe(s)
  {
    match s.rphase
    case RCas(take) =>
      var s' := s.(r := s.c, rp := if s.c.Some? then Some(s.wp) else None);
      if s.c == Some(s.begin) then s'.(c := None, asleep := true, rphase := RIdle)
      else if s.c.None? then s'.(rphase := RIdle)
      else s'.(rphase := if take then RTake else RIdle)
    case RTake => s.(got := s.got + [s.mem.vals[s.begin]], rphase := RPop)
    case RPop =>
      if s.begin.pos + 1 == s.n then
        var b := s.mem.next[s.begin.chunk];
        s.(begin := Addr(b, 0), mem := s.mem.(prev := s.mem.prev - {b}), front := s.front + 1, rphase :=
          RSwap(s.begin.chunk))
      else s.(begin := s.begin.(pos := s.begin.pos + 1), front := s.front + 1, rphase := RIdle)
    case RSwap(o) => s.(mem := s.mem.(spare := Some(o)), rphase := RFree(s.mem.spare))
    case RFree(cs) =>
      if cs.Some? then s.(mem := s.mem.(alive := s.mem.alive - {cs.value}), rphase := RIdle)
      else s.(rphase := RIdle)
  }

  // -------------------------------------------------------------- invariants

  /** The writer is inside `push`, where the last chunk is full and has no successor yet. */
  predicate MidPush<T>(s: Pipe<T>) {
    s.wphase.WXchg? || s.wphase.WLink?
  }

  function Low<T>(s: Pipe<T>): nat
    requires s.n > 0
  {
    Coord(s.n, s.front).0
  }

  /** The chunks of the chain from `begin` to `end`. */
  function Chain<T>(s: Pipe<T>): seq<nat>
    requires s.n > 0 && Low(s) <= |s.chunks|
  {
    s.chunks[Low(s)..]
  }

  /** Chunks that are in the hands of one thread, between two steps. */
  function InTransit<T>(s: Pipe<T>): multiset<nat> {
    (if s.wphase.WLink? then AsBag(s.wphase.sc) else multiset{})
    + (match s.rphase case RSwap(o) => multiset{o} case RFree(cs) => AsBag(cs) case _ => multiset{})
  }

  /** Every allocated chunk is in exactly one place. */
  ghost predicate Accounted<T>(s: Pipe<T>)
    requires s.n > 0
  {
    && Low(s) <= |s.chunks|
    && multiset(s.mem.alive) == multiset(Chain(s)) + AsBag(s.mem.spare) + InTransit(s)
  }

  /** The order of the pointers in the stream. */
  ghost predicate Ordered<T>(s: Pipe<T>) {
    && s.n > 0
    && s.front <= s.wp <= s.fp <= s.last
    && (s.rp.Some? ==> s.front <= s.rp.value <= s.wp)
    && |s.chunks| == (if MidPush(s) then Coord(s.n, s.last).0 else Coord(s.n, s.last + 1).0) + 1
    && (MidPush(s) ==> Coord(s.n, s.last).1 == s.n - 1)
    && |s.sent| == s.last + (if s.wphase.WPush? then 1 else 0)
    && ((s.rphase.RTake? || s.rphase.RPop?) ==> s.rp.Some? && s.front < s.rp.value)
    && (s.asleep <==> s.c.None?)
    && (s.asleep ==> s.front == s.wp && s.rp in {None, Some(s.front)})
    && (s.wphase.WSet? ==> s.asleep)
    && (s.wphase.WCas? || s.wphase.WSet? ==> s.wp < s.fp)
    && (s.rp.None? ==> s.rphase.RIdle? || s.rphase.RCas?)
    && (s.rphase.RSwap? || s.rphase.RFree? ==> s.rp.Some?)
  }

  lemma InRange<T>(s: Pipe<T>, p: nat)
    requires Ordered(s) && s.front <= p <= s.last
    ensures Low(s) <= Coord(s.n, p).0 < |s.chunks|
  {
    if s.front < p {
      CoordGrows(s.n, s.front, p);
    }
    if p < s.last {
      CoordGrows(s.n, p, s.last);
    }
  }

  /** Pointer `a` is the address of position `p`. */
  ghost predicate At(n: nat, chunks: seq<nat>, a: Addr, p: nat)
    requires n > 0
  {
    Coord(n, p).0 < |chunks| && a == AddrAt(n, chunks, p)
  }

  /** Every pointer is the address of the position it stands for. */
  ghost predicate Placed<T>(s: Pipe<T>)
    requires s.n > 0
  {
    && At(s.n, s.chunks, s.begin, s.front) && At(s.n, s.chunks, s.w, s.wp)
    && At(s.n, s.chunks, s.f, s.fp) && At(s.n, s.chunks, s.back, s.last)
    && (if MidPush(s) then s.chunks != [] && s.end == Addr(s.chunks[|s.chunks| - 1], s.n)
        else At(s.n, s.chunks, s.end, s.last + 1))
    && (s.c.Some? ==> s.c == Some(s.w))
    && (s.r.Some? <==> s.rp.Some?)
    && (s.r.Some? ==> At(s.n, s.chunks, s.r.value, s.rp.value))
  }

  ghost predicate LinkAt(chunks: seq<nat>, next: map<nat, nat>, prev: map<nat, nat>, i: nat)
    requires i + 1 < |chunks|
  {
    && chunks[i] in next && next[chunks[i]] == chunks[i + 1]
    && chunks[i + 1] in prev && prev[chunks[i + 1]] == chunks[i]
  }

  /** The chunks from number `low` on are linked in order, both ways. */
  ghost predicate Linked(chunks: seq<nat>, low: nat, next: map<nat, nat>, prev: map<nat, nat>) {
    forall i | low <= i < |chunks| - 1 :: LinkAt(chunks, next, prev, i)
  }

  ghost predicate StoredAt<T>(n: nat, chunks: seq<nat>, vals: map<Addr, T>, sent: seq<T>, p: nat)
    requires n > 0 && p < |sent|
  {
    && Coord(n, p).0 < |chunks|
    && AddrAt(n, chunks, p) in vals && vals[AddrAt(n, chunks, p)] == sent[p]
  }

  /** Every item that is written and not yet popped is in the slot of its position. */
  ghost predicate Stored<T>(n: nat, chunks: seq<nat>, vals: map<Addr, T>, sent: seq<T>, front: nat)
    requires n > 0
  {
    forall p | front <= p < |sent| :: StoredAt(n, chunks, vals, sent, p)
  }

  ghost predicate Delivered<T>(s: Pipe<T>) {
    var k := s.front + if s.rphase.RPop? then 1 else 0;
    k <= |s.sent| && s.got == s.sent[..k]
  }

  ghost predicate Inv<T>(s: Pipe<T>) {
    && Ordered(s) && Accounted(s) && Placed(s) && Delivered(s)
    && Linked(s.chunks, Low(s), s.mem.next, s.mem.prev)
    && Stored(s.n, s.chunks, s.mem.vals, s.sent, s.front)
  }

  // ------------------------------------------------- addresses mean positions

  lemma OnceInBag(a: seq<nat>, bag: multiset<nat>, i: nat, j: nat)
    requires i < j < |a| && multiset(a) <= bag && bag[a[i]] <= 1
    ensures a[i] != a[j]
  {
    assert a == a[..i] + [a[i]] + a[i + 1..j] + [a[j]] + a[j + 1..];
    assert a[i] == a[j] ==> multiset(a)[a[i]] >= 2;
  }

  /** The chunks of the chain are allocated and pairwise distinct. */
  lemma ChainDistinct<T>(s: Pipe<T>)
    requires s.n > 0 && Accounted(s)
    ensures forall i | Low(s) <= i < |s.chunks| :: s.chunks[i] in s.mem.alive
    ensures forall i, j | Low(s) <= i < j < |s.chunks| :: s.chunks[i] != s.chunks[j]
  {
    var a, low := Chain(s), Low(s);
    forall i | low <= i < |s.chunks|
      ensures s.chunks[i] in s.mem.alive
    {
      assert a[i - low] in multiset(a);
      assert s.chunks[i] in multiset(s.mem.alive);
    }
    forall i, j | low <= i < j < |s.chunks|
      ensures s.chunks[i] != s.chunks[j]
    {
      OnceInBag(a, multiset(s.mem.alive), i - low, j - low);
    }
  }

  /** Live positions have pairwise distinct addresses, so a test of pointers is a test of positions. */
  lemma AddressesMeanPositions<T>(s: Pipe<T>, p: nat, q: nat)
    requires Inv(s) && s.front <= p <= s.last && s.front <= q <= s.last
    ensures Coord(s.n, p).0 < |s.chunks| && Coord(s.n, q).0 < |s.chunks|
    ensures AddrAt(s.n, s.chunks, p) == AddrAt(s.n, s.chunks, q) <==> p == q
  {
    InRange(s, p);
    InRange(s, q);
    ChainDistinct(s);
    if p < q { CoordGrows(s.n, p, q); } else if q < p { CoordGrows(s.n, q, p); }
  }

  // ---------------------------------------------------------- the reader's steps

  /** A step that moves only pointers keeps the invariant if it keeps their order and their places. */
  lemma OnlyPointers<T>(s: Pipe<T>, s': Pipe<T>)
    requires Inv(s) && Ordered(s') && Placed(s')
    requires s'.n == s.n && s'.mem == s.mem && s'.chunks == s.chunks && s'.front == s.front
    requires s'.sent == s.sent && s'.got == s.got && s'.rphase.RPop? == s.rphase.RPop?
    requires InTransit(s') == InTransit(s)
    ensures Inv(s')
  {
    assert Chain(s') == Chain(s);
  }

  /** Steps that leave memory, the chain and all positions alone. */
  ghost predicate SameQueue<T>(s: Pipe<T>, s': Pipe<T>) {
    && s'.n == s.n && s'.mem == s.mem && s'.chunks == s.chunks
    && s'.front == s.front && s'.last == s.last && s'.sent == s.sent && s'.got == s.got
    && s'.back == s.back && s'.end == s.end && s'.begin == s.begin
    && MidPush(s') == MidPush(s) && s'.rphase.RPop? == s.rphase.RPop? && InTransit(s') == InTransit(s)
  }

  /** `check_read` finds a prefetched item exactly if there is one. */
  lemma LookStep<T>(s: Pipe<T>, take: bool)
    requires Inv(s) && s.rphase.RIdle?
    ensures Inv(Look(s, take))
    ensures Look(s, take).rphase.RCas? <==> s.rp in {None, Some(s.front)}
  {
    if s.rp.Some? {
      AddressesMeanPositions(s, s.front, s.rp.value);
    }
    LookPlaced(s, take);
    OnlyPointers(s, Look(s, take));
  }

  lemma LookPlaced<T>(s: Pipe<T>, take: bool)
    requires Ordered(s) && Placed(s) && s.rphase.RIdle?
    requires s.rp.Some? && s.r != Some(s.begin) ==> s.front < s.rp.value
    ensures Ordered(Look(s, take)) && Placed(Look(s, take))
  {
  }

  /** The reader's compare-and-swap succeeds exactly if everything flushed has been read. */
  lemma ReaderCasStep<T>(s: Pipe<T>)
    requires Inv(s) && s.rphase.RCas?
    ensures Inv(ReaderStep(s))
    ensures !s.asleep ==> (ReaderStep(s).asleep <==> s.front == s.wp)
  {
    AddressesMeanPositions(s, s.front, s.wp);
    ReaderCasPlaced(s);
    OnlyPointers(s, ReaderStep(s));
  }

  lemma ReaderCasPlaced<T>(s: Pipe<T>)
    requires Ordered(s) && Placed(s) && s.rphase.RCas? && (s.begin == s.w <==> s.front == s.wp)
    ensures Ordered(ReaderStep(s)) && Placed(ReaderStep(s))
  {
  }

  /** The slot at `begin` holds the next item of the stream. */
  lemma TakesNext<T>(s: Pipe<T>)
    requires Inv(s) && s.rphase.RTake?
    ensures ReaderSafe(s) && s.front < |s.sent| && s.mem.vals[s.begin] == s.sent[s.front]
  {
    InRange(s, s.front);
    ChainDistinct(s);
    assert StoredAt(s.n, s.chunks, s.mem.vals, s.sent, s.front);
  }

  lemma TakeStep<T>(s: Pipe<T>)
    requires Inv(s) && s.rphase.RTake?
    ensures ReaderSafe(s) && Inv(ReaderStep(s))
  {
    TakesNext(s);
    assert ReaderStep(s).got == s.sent[..s.front + 1];
  }

  lemma PopSafe<T>(s: Pipe<T>)
    requires Inv(s) && s.rphase.RPop?
    ensures s.front + 1 <= s.wp
    ensures s.begin == Addr(s.chunks[Low(s)], Coord(s.n, s.front).1)
    ensures s.begin.pos + 1 == s.n ==>
      && Coord(s.n, s.front + 1) == (Low(s) + 1, 0) && Low(s) + 1 < |s.chunks|
      && LinkAt(s.chunks, s.mem.next, s.mem.prev, Low(s)) && s.chunks[Low(s) + 1] in s.mem.alive
      && s.chunks[Low(s)] in s.mem.alive
  {
    InRange(s, s.front);
    InRange(s, s.front + 1);
    if s.begin.pos + 1 == s.n {
      ChainDistinct(s);
      assert Coord(s.n, s.front + 1) == (Low(s) + 1, 0);
    }
  }

  /** The item has been taken: popping it moves `begin` one position on. */
  lemma PopPlaced<T>(s: Pipe<T>)
    requires s.n > 0 && Placed(s) && s.rphase.RPop? && ReaderSafe(s)
    requires At(s.n, s.chunks, ReaderStep(s).begin, s.front + 1)
    ensures Placed(ReaderStep(s))
  {
  }

  lemma PopOrdered<T>(s: Pipe<T>)
    requires Inv(s) && s.rphase.RPop? && ReaderSafe(s)
    ensures Ordered(ReaderStep(s)) && Delivered(ReaderStep(s))
  {
    PopSafe(s);
  }

  /** The new address of `begin`. */
  lemma BeginMoves<T>(s: Pipe<T>)
    requires Inv(s) && s.rphase.RPop? && ReaderSafe(s)
    ensures At(s.n, s.chunks, ReaderStep(s).begin, s.front + 1)
  {
    PopSafe(s);
    InRange(s, s.front + 1);
    assert Coord(s.n, s.front + 1) == if s.begin.pos + 1 == s.n then (Low(s) + 1, 0) else (Low(s), s.begin.pos + 1);
  }

  lemma PopInside<T>(s: Pipe<T>)
    requires Inv(s) && s.rphase.RPop? && s.begin.pos + 1 != s.n
    ensures ReaderSafe(s) && Inv(ReaderStep(s))
  {
    PopOrdered(s);
    BeginMoves(s);
    PopPlaced(s);
    var s' := ReaderStep(s);
    assert Coord(s.n, s.front + 1) == (Low(s), s.begin.pos + 1);
    assert Chain(s') == Chain(s);
  }

  lemma PopAccounted<T>(s: Pipe<T>)
    requires Inv(s) && s.rphase.RPop? && ReaderSafe(s) && s.begin.pos + 1 == s.n
    ensures Accounted(ReaderStep(s))
  {
    PopSafe(s);
    assert Chain(s) == [s.begin.chunk] + Chain(ReaderStep(s));
  }

  lemma PopChunk<T>(s: Pipe<T>)
    requires Inv(s) && s.rphase.RPop? && s.begin.pos + 1 == s.n
    ensures ReaderSafe(s) && Inv(ReaderStep(s))
  {
    PopSafe(s);
    PopOrdered(s);
    BeginMoves(s);
    PopPlaced(s);
    PopAccounted(s);
    UnlinkPrev(s);
  }

  /** Clearing the back link of the new first chunk leaves all links behind it. */
  lemma UnlinkPrev<T>(s: Pipe<T>)
    requires Inv(s) && Low(s) + 1 < |s.chunks|
    ensures Linked(s.chunks, Low(s) + 1, s.mem.next, s.mem.prev - {s.chunks[Low(s) + 1]})
  {
    ChainDistinct(s);
    var prev := s.mem.prev - {s.chunks[Low(s) + 1]};
    forall i: nat | Low(s) + 1 <= i < |s.chunks| - 1
      ensures LinkAt(s.chunks, s.mem.next, prev, i)
    {
      assert LinkAt(s.chunks, s.mem.next, s.mem.prev, i);
    }
  }

  lemma PopStep<T>(s: Pipe<T>)
    requires Inv(s) && s.rphase.RPop?
    ensures ReaderSafe(s) && Inv(ReaderStep(s))
  {
    if s.begin.pos + 1 == s.n { PopChunk(s); } else { PopInside(s); }
  }

  /** A step that only moves chunks that are not in the chain. */
  lemma Reshelve<T>(s: Pipe<T>, alive: set<nat>, spare: Option<nat>, rphase: ReaderPhase)
    requires Inv(s) && (s.rphase.RSwap? || s.rphase.RFree?)
    requires !rphase.RTake? && !rphase.RPop? && !rphase.RCas?
    requires var s' := s.(mem := s.mem.(alive := alive, spare := spare), rphase := rphase); Accounted(s')
    ensures Inv(s.(mem := s.mem.(alive := alive, spare := spare), rphase := rphase))
  {
  }

  lemma SwapStep<T>(s: Pipe<T>)
    requires Inv(s) && s.rphase.RSwap?
    ensures Inv(ReaderStep(s))
  {
    var o := s.rphase.o;
    assert Chain(ReaderStep(s)) == Chain(s);
    Reshelve(s, s.mem.alive, Some(o), RFree(s.mem.spare));
  }

  lemma FreeStep<T>(s: Pipe<T>)
    requires Inv(s) && s.rphase.RFree?
    ensures ReaderSafe(s) && Inv(ReaderStep(s))
  {
    if s.rphase.cs.Some? {
      var x := s.rphase.cs.value;
      assert x in InTransit(s);
      assert x in multiset(s.mem.alive);
      FreeOne(s.mem.alive, x);
      assert Chain(ReaderStep(s)) == Chain(s);
      Reshelve(s, s.mem.alive - {x}, s.mem.spare, RIdle);
    } else {
      assert Chain(ReaderStep(s)) == Chain(s);
      Reshelve(s, s.mem.alive, s.mem.spare, RIdle);
    }
  }

  lemma FreeOne(alive: set<nat>, x: nat)
    requires x in alive
    ensures multiset(alive - {x}) == multiset(alive) - multiset{x}
  {
  }

  lemma ReaderKeeps<T>(s: Pipe<T>)
    requires Inv(s) && !s.rphase.RIdle?
    ensures ReaderSafe(s) && Inv(ReaderStep(s))
  {
    match s.rphase
    case RCas(_) => ReaderCasStep(s);
    case RTake => TakeStep(s);
    case RPop => PopStep(s);
    case RSwap(_) => SwapStep(s);
    case RFree(_) => FreeStep(s);
  }

  // ---------------------------------------------------------- the writer's steps

  lemma BeginWrite<T>(s: Pipe<T>, v: T, incomplete: bool)
    requires Inv(s) && s.wphase.WIdle?
    ensures Inv(s.(wphase := WStore(v, incomplete)))
  {
    assert SameQueue(s, s.(wphase := WStore(v, incomplete)));
  }

  /** `flush` has something to do exactly if completed items are not flushed yet. */
  lemma BeginFlush<T>(s: Pipe<T>)
    requires Inv(s) && s.wphase.WIdle?
    ensures Inv(Next(s, Flush))
    ensures Next(s, Flush).wphase.WCas? <==> s.wp < s.fp
  {
    AddressesMeanPositions(s, s.wp, s.fp);
    assert SameQueue(s, Next(s, Flush));
  }

  lemma BackPlace<T>(s: Pipe<T>)
    requires Inv(s)
    ensures s.back.chunk in s.mem.alive && s.back.pos < s.n
  {
    InRange(s, s.last);
    ChainDistinct(s);
  }

  lemma StoreStep<T>(s: Pipe<T>, id: nat)
    requires Inv(s) && s.wphase.WStore?
    ensures WriterSafe(s) && Inv(WriterStep(s, id))
  {
    BackPlace(s);
    var s' := WriterStep(s, id);
    forall p: nat | s.front <= p < |s'.sent|
      ensures StoredAt(s.n, s.chunks, s'.mem.vals, s'.sent, p)
    {
      AddressesMeanPositions(s, p, s.last);
      if p < s.last {
        assert StoredAt(s.n, s.chunks, s.mem.vals, s.sent, p);
      }
    }
    assert InTransit(s') == InTransit(s);
  }

  lemma PushOrdered<T>(s: Pipe<T>, id: nat)
    requires Ordered(s) && Placed(s) && s.wphase.WPush?
    ensures Ordered(WriterStep(s, id))
  {
    assert s.end.pos == Coord(s.n, s.last + 1).1;
    assert Coord(s.n, s.last + 2) ==
      if s.end.pos + 1 == s.n then (Coord(s.n, s.last + 1).0 + 1, 0) else (Coord(s.n, s.last + 1).0, s.end.pos + 1);
  }

  /** Where `push` leaves the end of the chain. */
  lemma PushEnd<T>(s: Pipe<T>, id: nat)
    requires Ordered(s) && Placed(s) && s.wphase.WPush?
    ensures var end := s.end.(pos := s.end.pos + 1);
      if end.pos == s.n then s.chunks != [] && end == Addr(s.chunks[|s.chunks| - 1], s.n)
      else At(s.n, s.chunks, end, s.last + 2)
  {
    assert s.end.pos == Coord(s.n, s.last + 1).1;
    assert Coord(s.n, s.last + 2) ==
      if s.end.pos + 1 == s.n then (Coord(s.n, s.last + 1).0 + 1, 0) else (Coord(s.n, s.last + 1).0, s.end.pos + 1);
  }

  /** Moving the flush pointer to the back. */
  lemma MarkPlaced<T>(s: Pipe<T>, incomplete: bool)
    requires s.n > 0 && s.wphase.WIdle? && Placed(s)
    ensures Placed(Mark(s, incomplete))
  {
  }

  /** The pointers after a push, in the phase that follows it. */
  function Pushed<T>(s: Pipe<T>, phase: WriterPhase<T>): Pipe<T> {
    s.(back := s.end, end := s.end.(pos := s.end.pos + 1), last := s.last + 1, wphase := phase)
  }

  lemma PushMoves<T>(s: Pipe<T>, phase: WriterPhase<T>)
    requires Ordered(s) && Placed(s) && s.wphase.WPush?
    requires if s.end.pos + 1 == s.n then phase.WXchg? else phase.WIdle?
    ensures Placed(Pushed(s, phase))
  {
    PushEnd(s, 0);
  }

  lemma PushPlaced<T>(s: Pipe<T>, id: nat)
    requires Ordered(s) && Placed(s) && s.wphase.WPush?
    ensures Placed(WriterStep(s, id))
  {
    var incomplete := s.wphase.incomplete;
    if s.end.pos + 1 == s.n {
      PushMoves(s, WXchg(incomplete));
      assert WriterStep(s, id) == Pushed(s, WXchg(incomplete));
    } else {
      PushMoves(s, WIdle);
      MarkPlaced(Pushed(s, WIdle), incomplete);
      assert WriterStep(s, id) == Mark(Pushed(s, WIdle), incomplete);
    }
  }

  /** `push` inside a chunk touches no memory. */
  lemma PushKeeps<T>(s: Pipe<T>, id: nat)
    requires s.n > 0 && s.wphase.WPush?
    ensures var s' := WriterStep(s, id);
      && s'.n == s.n && s'.mem == s.mem && s'.chunks == s.chunks && s'.front == s.front
      && s'.sent == s.sent && s'.got == s.got && s'.rphase == s.rphase && InTransit(s') == InTransit(s)
  {
  }

  lemma PushStep<T>(s: Pipe<T>, id: nat)
    requires Inv(s) && s.wphase.WPush?
    ensures Inv(WriterStep(s, id))
  {
    PushOrdered(s, id);
    PushPlaced(s, id);
    PushKeeps(s, id);
    OnlyPointers(s, WriterStep(s, id));
  }

  lemma TakeSpareStep<T>(s: Pipe<T>, id: nat)
    requires Inv(s) && s.wphase.WXchg?
    ensures Inv(WriterStep(s, id))
  {
    SpareInTransit(s, id);
  }

  lemma SpareInTransit<T>(s: Pipe<T>, id: nat)
    requires s.n > 0 && Accounted(s) && s.wphase.WXchg?
    ensures Accounted(WriterStep(s, id))
  {
    var s' := WriterStep(s, id);
    assert Chain(s') == Chain(s);
    assert InTransit(s') == AsBag(s.mem.spare) + InTransit(s);
  }

  /** The chunk that `push` links is not in the chain yet. */
  lemma NewChunk<T>(s: Pipe<T>, id: nat) returns (chunk: nat)
    requires Inv(s) && s.wphase.WLink? && id !in s.mem.alive
    ensures chunk == if s.wphase.sc.Some? then s.wphase.sc.value else id
    ensures s.wphase.sc.Some? ==> chunk in s.mem.alive
    ensures forall i | Low(s) <= i < |s.chunks| :: s.chunks[i] != chunk
  {
    ChainDistinct(s);
    chunk := if s.wphase.sc.Some? then s.wphase.sc.value else id;
    if s.wphase.sc.Some? {
      assert chunk in AsBag(s.wphase.sc);
      assert chunk in multiset(s.mem.alive);
      forall i | Low(s) <= i < |s.chunks|
        ensures s.chunks[i] != chunk
      {
        assert Chain(s)[i - Low(s)] in multiset(Chain(s));
      }
    }
  }

  lemma LinkSpare<T>(s: Pipe<T>, id: nat)
    requires Inv(s) && s.wphase.WLink? && s.wphase.sc.Some? && WriterSafe(s)
    ensures Accounted(WriterStep(s, id))
  {
    var s' := WriterStep(s, id);
    assert Chain(s') == Chain(s) + [s.wphase.sc.value];
    assert s'.mem.alive == s.mem.alive;
    assert InTransit(s) == multiset{s.wphase.sc.value} + InTransit(s');
  }

  lemma LinkFresh<T>(s: Pipe<T>, id: nat)
    requires Inv(s) && s.wphase.WLink? && s.wphase.sc.None? && id !in s.mem.alive && WriterSafe(s)
    ensures Accounted(WriterStep(s, id))
  {
    var s' := WriterStep(s, id);
    assert Chain(s') == Chain(s) + [id];
    AllocOne(s.mem.alive, id);
    assert InTransit(s) == InTransit(s');
  }

  lemma AllocOne(alive: set<nat>, x: nat)
    requires x !in alive
    ensures multiset(alive + {x}) == multiset(alive) + multiset{x}
  {
  }

  lemma LinkLinked<T>(s: Pipe<T>, chunk: nat)
    requires Inv(s) && s.wphase.WLink?
    requires forall i | Low(s) <= i < |s.chunks| :: s.chunks[i] != chunk
    ensures Linked(s.chunks + [chunk], Low(s), s.mem.next[s.end.chunk := chunk], s.mem.prev[chunk := s.end.chunk])
  {
    ChainDistinct(s);
    var next, prev := s.mem.next[s.end.chunk := chunk], s.mem.prev[chunk := s.end.chunk];
    var chunks := s.chunks + [chunk];
    forall i: nat | Low(s) <= i < |chunks| - 1
      ensures LinkAt(chunks, next, prev, i)
    {
      if i < |s.chunks| - 1 {
        assert LinkAt(s.chunks, s.mem.next, s.mem.prev, i);
      }
    }
  }

  lemma StoredInMore<T>(n: nat, chunks: seq<nat>, vals: map<Addr, T>, sent: seq<T>, front: nat, chunk: nat)
    requires n > 0 && Stored(n, chunks, vals, sent, front)
    ensures Stored(n, chunks + [chunk], vals, sent, front)
  {
    forall p: nat | front <= p < |sent|
      ensures StoredAt(n, chunks + [chunk], vals, sent, p)
    {
      assert StoredAt(n, chunks, vals, sent, p);
    }
  }

  lemma LinkOrdered<T>(s: Pipe<T>, id: nat)
    requires Ordered(s) && s.wphase.WLink? && WriterSafe(s)
    ensures Ordered(WriterStep(s, id))
  {
    assert Coord(s.n, s.last + 1) == (Coord(s.n, s.last).0 + 1, 0);
  }

  lemma LinkPlaced<T>(s: Pipe<T>, id: nat)
    requires Ordered(s) && Placed(s) && s.wphase.WLink? && WriterSafe(s)
    ensures Placed(WriterStep(s, id))
  {
    var chunk := if s.wphase.sc.Some? then s.wphase.sc.value else id;
    AttachPlaced(s, chunk);
    MarkPlaced(Attach(s, chunk).(wphase := WIdle), s.wphase.incomplete);
  }

  lemma AttachPlaced<T>(s: Pipe<T>, chunk: nat)
    requires Ordered(s) && Placed(s) && s.wphase.WLink?
    ensures Placed(Attach(s, chunk).(wphase := WIdle))
  {
    PlacedInMore(s, chunk);
    LinkEnd(s, chunk);
  }

  lemma LinkEnd<T>(s: Pipe<T>, chunk: nat)
    requires Ordered(s) && s.wphase.WLink?
    ensures At(s.n, s.chunks + [chunk], Addr(chunk, 0), s.last + 1)
  {
    assert Coord(s.n, s.last + 1) == (Coord(s.n, s.last).0 + 1, 0);
  }

  lemma PlacedInMore<T>(s: Pipe<T>, chunk: nat)
    requires s.n > 0 && Placed(s)
    ensures var chunks := s.chunks + [chunk];
      && At(s.n, chunks, s.begin, s.front) && At(s.n, chunks, s.w, s.wp)
      && At(s.n, chunks, s.f, s.fp) && At(s.n, chunks, s.back, s.last)
      && (s.r.Some? ==> At(s.n, chunks, s.r.value, s.rp.value))
  {
  }

  lemma LinkSafe<T>(s: Pipe<T>)
    requires Inv(s) && s.wphase.WLink?
    ensures WriterSafe(s)
  {
    ChainDistinct(s);
    InRange(s, s.last);
    if s.wphase.sc.Some? {
      assert s.wphase.sc.value in AsBag(s.wphase.sc);
      assert s.wphase.sc.value in multiset(s.mem.alive);
    }
  }

  lemma LinkStep<T>(s: Pipe<T>, id: nat)
    requires Inv(s) && s.wphase.WLink? && id !in s.mem.alive
    ensures WriterSafe(s) && Inv(WriterStep(s, id))
  {
    LinkSafe(s);
    var chunk := NewChunk(s, id);
    LinkOrdered(s, id);
    LinkPlaced(s, id);
    if s.wphase.sc.Some? { LinkSpare(s, id); } else { LinkFresh(s, id); }
    LinkLinked(s, chunk);
    StoredInMore(s.n, s.chunks, s.mem.vals, s.sent, s.front, chunk);
  }

  /** Between `flush`'s two steps `c` is NULL only because the reader has gone to sleep. */
  lemma WriterCasStep<T>(s: Pipe<T>, id: nat)
    requires Inv(s) && s.wphase.WCas?
    ensures Inv(WriterStep(s, id))
    ensures WriterStep(s, id).wphase.WSet? <==> s.asleep
    ensures s.asleep ==> s.front == s.wp == |s.got|
  {
    assert SameQueue(s, WriterStep(s, id));
  }

  lemma SetStep<T>(s: Pipe<T>, id: nat)
    requires Inv(s) && s.wphase.WSet?
    ensures Inv(WriterStep(s, id))
  {
    assert SameQueue(s, WriterStep(s, id));
  }

  lemma CoordBack(n: nat, p: nat)
    requires n > 0 && p > 0
    ensures Coord(n, p) ==
      if Coord(n, p - 1).1 == n - 1 then (Coord(n, p - 1).0 + 1, 0) else (Coord(n, p - 1).0, Coord(n, p - 1).1 + 1)
  {
  }

  /** The last two slots of the queue, and the links that lead back from them. */
  ghost predicate EndOfChain<T>(s: Pipe<T>, k: nat, o: nat)
    requires s.n > 0
  {
    && Coord(s.n, s.last) == (k, o)
    && if o + 1 == s.n
       then |s.chunks| == k + 2 && s.end == Addr(s.chunks[k + 1], 0) && LinkAt(s.chunks, s.mem.next, s.mem.prev, k)
       else |s.chunks| == k + 1 && s.end == Addr(s.chunks[k], o + 1)
  }

  ghost predicate BackOfChain<T>(s: Pipe<T>, k: nat, o: nat)
    requires s.n > 0
  {
    && s.last > 0 && k < |s.chunks| && s.back == Addr(s.chunks[k], o)
    && if o == 0
       then k > 0 && Coord(s.n, s.last - 1) == (k - 1, s.n - 1) && LinkAt(s.chunks, s.mem.next, s.mem.prev, k - 1)
       else Coord(s.n, s.last - 1) == (k, o - 1)
  }

  lemma EndHere<T>(s: Pipe<T>)
    requires Inv(s) && s.wphase.WIdle? && s.fp < s.last
    ensures var (k, o) := Coord(s.n, s.last); EndOfChain(s, k, o) && Low(s) <= k < |s.chunks|
  {
    InRange(s, s.last);
    CoordBack(s.n, s.last + 1);
  }

  lemma BackHere<T>(s: Pipe<T>)
    requires Inv(s) && s.wphase.WIdle? && s.fp < s.last
    ensures var (k, o) := Coord(s.n, s.last); BackOfChain(s, k, o)
  {
    InRange(s, s.last);
    InRange(s, s.last - 1);
    CoordBack(s.n, s.last);
  }

  lemma UnpushEnds<T>(s: Pipe<T>)
    requires Inv(s) && s.wphase.WIdle? && s.fp < s.last
    ensures var (k, o) := Coord(s.n, s.last); EndOfChain(s, k, o) && BackOfChain(s, k, o) && Low(s) <= k
  {
    EndHere(s);
    BackHere(s);
  }

  lemma EndsAreSafe<T>(s: Pipe<T>, k: nat, o: nat)
    requires Inv(s) && EndOfChain(s, k, o) && BackOfChain(s, k, o) && Low(s) <= k && (o == 0 ==> Low(s) < k)
    ensures UnpushSafe(s)
  {
    ChainDistinct(s);
  }

  /** There is an incomplete item to take back exactly if `f` is not at the back. */
  lemma UnwriteIsSafe<T>(s: Pipe<T>)
    requires Inv(s) && s.wphase.WIdle?
    ensures s.f != s.back <==> s.fp < s.last
    ensures s.f != s.back ==> UnpushSafe(s)
  {
    AddressesMeanPositions(s, s.fp, s.last);
    if s.fp < s.last {
      UnpushEnds(s);
      var (k, o) := Coord(s.n, s.last);
      InRange(s, s.last - 1);
      EndsAreSafe(s, k, o);
    }
  }

  /** Where the pointers are after `unpush`: one position back, both of them. */
  lemma UnpushPlaces<T>(s: Pipe<T>, k: nat, o: nat)
    requires UnpushSafe(s) && EndOfChain(s, k, o) && BackOfChain(s, k, o)
    ensures var s' := Unpush(s);
      && s'.chunks == s.chunks[..k + 1]
      && At(s.n, s'.chunks, s'.back, s.last - 1) && At(s.n, s'.chunks, s'.end, s.last)
  {
  }

  lemma AtInLess(n: nat, chunks: seq<nat>, m: nat, a: Addr, p: nat)
    requires n > 0 && At(n, chunks, a, p) && Coord(n, p).0 < m <= |chunks|
    ensures At(n, chunks[..m], a, p)
  {
  }

  lemma UnpushPlaced<T>(s: Pipe<T>)
    requires Inv(s) && s.wphase.WIdle? && s.f != s.back && UnpushSafe(s) && s.fp < s.last
    ensures Placed(Unpush(s))
  {
    UnpushEnds(s);
    var (k, o) := Coord(s.n, s.last);
    UnpushPlaces(s, k, o);
    AtBelow(s, s.begin, s.front, k + 1);
    AtBelow(s, s.w, s.wp, k + 1);
    AtBelow(s, s.f, s.fp, k + 1);
    if s.r.Some? { AtBelow(s, s.r.value, s.rp.value, k + 1); }
  }

  lemma AtBelow<T>(s: Pipe<T>, a: Addr, p: nat, m: nat)
    requires s.n > 0 && At(s.n, s.chunks, a, p) && p < s.last && Coord(s.n, s.last).0 < m <= |s.chunks|
    ensures At(s.n, s.chunks[..m], a, p)
  {
    CoordGrows(s.n, p, s.last);
    AtInLess(s.n, s.chunks, m, a, p);
  }

  lemma UnpushStored<T>(s: Pipe<T>)
    requires Inv(s) && s.wphase.WIdle? && s.f != s.back && UnpushSafe(s) && s.fp < s.last
    ensures var s' := Unpush(s); Stored(s.n, s'.chunks, s'.mem.vals, s'.sent, s.front)
  {
    UnpushEnds(s);
    var (k, o) := Coord(s.n, s.last);
    UnpushPlaces(s, k, o);
    var s' := Unpush(s);
    forall p: nat | s.front <= p < |s'.sent|
      ensures StoredAt(s.n, s'.chunks, s'.mem.vals, s'.sent, p)
    {
      assert StoredAt(s.n, s.chunks, s.mem.vals, s.sent, p);
      CoordGrows(s.n, p, s.last);
    }
  }

  /** If the last chunk became empty it is cut off and freed; otherwise memory stays as it is. */
  lemma UnpushMem<T>(s: Pipe<T>, k: nat, o: nat)
    requires UnpushSafe(s) && EndOfChain(s, k, o) && BackOfChain(s, k, o)
    ensures var s' := Unpush(s);
      if o + 1 == s.n
      then s'.mem == s.mem.(alive := s.mem.alive - {s.chunks[k + 1]}, next := s.mem.next - {s.chunks[k]})
      else s'.mem == s.mem
  {
  }

  lemma UnpushLinked<T>(s: Pipe<T>, k: nat, o: nat)
    requires Inv(s) && UnpushSafe(s) && EndOfChain(s, k, o) && BackOfChain(s, k, o) && Low(s) <= k
    ensures var s' := Unpush(s); Linked(s'.chunks, Low(s), s'.mem.next, s'.mem.prev)
  {
    UnpushPlaces(s, k, o);
    UnpushMem(s, k, o);
    ChainDistinct(s);
    CutLinks(s.chunks, Low(s), s.mem.next, s.mem.prev, k);
    assert s.chunks[..|s.chunks|] == s.chunks;
  }

  lemma CutLinks(chunks: seq<nat>, low: nat, next: map<nat, nat>, prev: map<nat, nat>, k: nat)
    requires low <= k < |chunks| && Linked(chunks, low, next, prev)
    requires forall i, j | low <= i < j < |chunks| :: chunks[i] != chunks[j]
    ensures Linked(chunks[..k + 1], low, next - {chunks[k]}, prev)
  {
    var next', chunks' := next - {chunks[k]}, chunks[..k + 1];
    forall i: nat | low <= i < |chunks'| - 1
      ensures LinkAt(chunks', next', prev, i)
    {
      assert LinkAt(chunks, next, prev, i);
    }
  }

  lemma FreeLast(alive: set<nat>, chain: seq<nat>, x: nat, rest: multiset<nat>)
    requires multiset(alive) == multiset(chain + [x]) + rest
    ensures multiset(alive - {x}) == multiset(chain) + rest
  {
    assert multiset(chain + [x]) == multiset(chain) + multiset{x};
    assert x in multiset(alive);
    FreeOne(alive, x);
  }

  lemma CutAccounted<T>(s: Pipe<T>, s': Pipe<T>, x: nat)
    requires s.n > 0 && Accounted(s) && Low(s) <= |s'.chunks|
    requires s'.n == s.n && s'.front == s.front && s.chunks == s'.chunks + [x]
    requires s'.mem.alive == s.mem.alive - {x} && s'.mem.spare == s.mem.spare && InTransit(s') == InTransit(s)
    ensures Accounted(s')
  {
    assert Chain(s) == Chain(s') + [x];
    FreeLast(s.mem.alive, Chain(s'), x, AsBag(s.mem.spare) + InTransit(s));
  }

  lemma UnpushKeeps<T>(s: Pipe<T>)
    requires UnpushSafe(s)
    ensures var s' := Unpush(s);
      && s'.n == s.n && s'.front == s.front && s'.mem.spare == s.mem.spare
      && s'.wphase == s.wphase && s'.rphase == s.rphase
  {
  }

  lemma UnpushAccounted<T>(s: Pipe<T>, k: nat, o: nat)
    requires s.n > 0 && Accounted(s) && s.wphase.WIdle?
    requires UnpushSafe(s) && EndOfChain(s, k, o) && BackOfChain(s, k, o) && Low(s) <= k
    ensures Accounted(Unpush(s))
  {
    UnpushPlaces(s, k, o);
    UnpushMem(s, k, o);
    UnpushKeeps(s);
    if o + 1 == s.n {
      assert s.chunks == s.chunks[..k + 1] + [s.chunks[k + 1]];
      CutAccounted(s, Unpush(s), s.chunks[k + 1]);
    } else {
      SameAccounts(s, Unpush(s));
    }
  }

  lemma SameAccounts<T>(s: Pipe<T>, s': Pipe<T>)
    requires s.n > 0 && Accounted(s)
    requires s'.n == s.n && s'.front == s.front && s'.chunks == s.chunks
    requires s'.mem.alive == s.mem.alive && s'.mem.spare == s.mem.spare && InTransit(s') == InTransit(s)
    ensures Accounted(s')
  {
    assert Chain(s') == Chain(s);
  }

  /** `unwrite` takes back the newest item, and the slot it returns still holds it. */
  lemma UnwriteStep<T>(s: Pipe<T>)
    requires Inv(s) && s.wphase.WIdle? && s.fp < s.last
    ensures s.f != s.back && UnpushSafe(s) && Inv(Unpush(s))
    ensures var s' := Unpush(s);
      && s.sent == s'.sent + [s.sent[s.last - 1]]
      && s'.back in s'.mem.vals && s'.mem.vals[s'.back] == s.sent[s.last - 1]
  {
    UnwriteIsSafe(s);
    UnpushEnds(s);
    var (k, o) := Coord(s.n, s.last);
    UnpushPlaced(s);
    UnpushStored(s);
    UnpushLinked(s, k, o);
    UnpushAccounted(s, k, o);
    UnpushRest(s, k, o);
  }

  lemma UnpushRest<T>(s: Pipe<T>, k: nat, o: nat)
    requires Inv(s) && s.wphase.WIdle? && s.fp < s.last
    requires UnpushSafe(s) && EndOfChain(s, k, o) && BackOfChain(s, k, o)
    ensures var s' := Unpush(s);
      && Ordered(s') && Delivered(s') && s.sent == s'.sent + [s.sent[s.last - 1]]
      && s'.back in s'.mem.vals && s'.mem.vals[s'.back] == s.sent[s.last - 1]
  {
    UnpushPlaces(s, k, o);
    assert StoredAt(s.n, s.chunks, s.mem.vals, s.sent, s.last - 1);
  }

  lemma WriterKeeps<T>(s: Pipe<T>, id: nat)
    requires Inv(s) && !s.wphase.WIdle? && id !in s.mem.alive
    ensures WriterSafe(s) && Inv(WriterStep(s, id))
  {
    match s.wphase
    case WStore(_, _) => StoreStep(s, id);
    case WPush(_) => PushStep(s, id);
    case WXchg(_) => TakeSpareStep(s, id);
    case WLink(_, _) => LinkStep(s, id);
    case WCas => WriterCasStep(s, id);
    case WSet => SetStep(s, id);
  }
}
