/**
  Why `unpush`, the linking of a chunk and `pop` may each be one step although they follow and write
  several links. As long as one thread stands before such a step, no step that the other thread can
  take touches any of these links, or a chunk that goes into use or out of use there. Accesses to
  disjoint memory commute, so it makes no difference whether the other thread runs between them.
*/
module YPipeLinks {
  import opened Options
  import opened YPipe
  import opened YPipeRuns

  datatype Link = NextOf(chunk: nat) | PrevOf(chunk: nat)

  /** The links that a call of the writer reads or writes. */
  ghost function WriterLinks<T>(s: Pipe<T>, call: Call<T>): set<Link>
    requires Fits(s, call) && Safe(s, call)
  {
    if call.Unwrite? && s.f != s.back then
      (if s.back.pos == 0 then {PrevOf(s.back.chunk)} else {})
      + (if s.end.pos == 0 then {PrevOf(s.end.chunk), NextOf(s.mem.prev[s.end.chunk])} else {})
    else if call.Writing? && s.wphase.WLink? then {NextOf(s.end.chunk), PrevOf(NewOne(s, call))}
    else {}
  }

  ghost function NewOne<T>(s: Pipe<T>, call: Call<T>): nat
    requires call.Writing? && s.wphase.WLink?
  {
    if s.wphase.sc.Some? then s.wphase.sc.value else call.id
  }

  /** The chunk that a call of the writer takes into use or frees. */
  ghost function WriterTurns<T>(s: Pipe<T>, call: Call<T>): set<nat>
    requires Fits(s, call) && Safe(s, call)
  {
    if call.Unwrite? && s.f != s.back && s.end.pos == 0 then {s.mem.next[s.mem.prev[s.end.chunk]]}
    else if call.Writing? && s.wphase.WLink? then {NewOne(s, call)}
    else {}
  }

  /** The chunks that the writer works on. */
  ghost function WriterChunks<T>(s: Pipe<T>, call: Call<T>): set<nat>
    requires Fits(s, call) && Safe(s, call)
  {
    {s.back.chunk, s.end.chunk} + WriterTurns(s, call) + set l | l in WriterLinks(s, call) :: l.chunk
  }

  predicate PopsChunk<T>(s: Pipe<T>, call: Call<T>) {
    call.Reading? && s.rphase.RPop? && s.begin.pos + 1 == s.n
  }

  ghost function ReaderLinks<T>(s: Pipe<T>, call: Call<T>): set<Link>
    requires Fits(s, call) && Safe(s, call)
  {
    if PopsChunk(s, call) then {NextOf(s.begin.chunk), PrevOf(s.mem.next[s.begin.chunk])} else {}
  }

  /** The chunk that a call of the reader frees. */
  ghost function ReaderTurns<T>(s: Pipe<T>, call: Call<T>): set<nat> {
    if call.Reading? && s.rphase.RFree? && s.rphase.cs.Some? then {s.rphase.cs.value} else {}
  }

  /** The chunks that the reader works on. */
  ghost function ReaderChunks<T>(s: Pipe<T>, call: Call<T>): set<nat>
    requires Fits(s, call) && Safe(s, call)
  {
    {s.begin.chunk} + (set x | x in ReaderHand(s)) + (set l | l in ReaderLinks(s, call) :: l.chunk)
  }

  /** Where the reader is: in the chunks of the chain up to the flushed position, or at one that has left the chain. */
  lemma ReaderPlace<T>(s: Pipe<T>, call: Call<T>)
    requires Inv(s) && Fits(s, call) && Safe(s, call) && !ByWriter(call)
    ensures Low(s) < |s.chunks| && s.begin.chunk == s.chunks[Low(s)]
    ensures PopsChunk(s, call) ==>
      && s.front + 1 <= s.wp && Coord(s.n, s.front + 1) == (Low(s) + 1, 0) && Low(s) + 1 < |s.chunks|
      && ReaderLinks(s, call) == {NextOf(s.chunks[Low(s)]), PrevOf(s.chunks[Low(s) + 1])}
  {
    InRange(s, s.front);
    if PopsChunk(s, call) { PopSafe(s); }
  }

  lemma OnePlace(all: set<nat>, a: multiset<nat>, b: multiset<nat>, rest: multiset<nat>, x: nat)
    requires multiset(all) == a + b + rest && x in a
    ensures x in all && x !in b
  {
    assert multiset(all)[x] <= 1;
    assert x in multiset(all);
  }

  /** The chunk in the writer's hands while it links. */
  ghost function WriterHand<T>(s: Pipe<T>): multiset<nat> {
    if s.wphase.WLink? then AsBag(s.wphase.sc) else multiset{}
  }

  /** The chunk in the reader's hands after it has left the chain. */
  ghost function ReaderHand<T>(s: Pipe<T>): multiset<nat> {
    match s.rphase case RSwap(o) => multiset{o} case RFree(cs) => AsBag(cs) case _ => multiset{}
  }

  /** Chunks in the hands of one thread are neither in the chain nor with the other one. */
  lemma HandsApart<T>(s: Pipe<T>, i: nat)
    requires s.n > 0 && Accounted(s) && Low(s) <= i < |s.chunks|
    ensures s.chunks[i] !in WriterHand(s) && s.chunks[i] !in ReaderHand(s)
  {
    var chain, w, r, spare := multiset(Chain(s)), WriterHand(s), ReaderHand(s), AsBag(s.mem.spare);
    assert InTransit(s) == w + r;
    assert Chain(s)[i - Low(s)] in chain;
    OnePlace(s.mem.alive, chain, w, spare + r, s.chunks[i]);
    OnePlace(s.mem.alive, chain, r, spare + w, s.chunks[i]);
  }

  lemma HandsDiffer<T>(s: Pipe<T>, x: nat)
    requires s.n > 0 && Accounted(s) && x in ReaderHand(s)
    ensures x in s.mem.alive && x !in WriterHand(s)
  {
    assert InTransit(s) == WriterHand(s) + ReaderHand(s);
    OnePlace(s.mem.alive, ReaderHand(s), WriterHand(s), multiset(Chain(s)) + AsBag(s.mem.spare), x);
  }

  /** The chain consists of different chunks, none of which the reader has in its hands. */
  ghost predicate ChainHeld<T>(s: Pipe<T>)
    requires s.n > 0
  {
    && (forall i, j | Low(s) <= i < j < |s.chunks| :: s.chunks[i] != s.chunks[j])
    && (forall i | Low(s) <= i < |s.chunks| :: s.chunks[i] !in ReaderHand(s))
  }

  lemma HoldsChain<T>(s: Pipe<T>)
    requires s.n > 0 && Accounted(s)
    ensures ChainHeld(s)
  {
    ChainDistinct(s);
    forall i | Low(s) <= i < |s.chunks|
      ensures s.chunks[i] !in ReaderHand(s)
    {
      HandsApart(s, i);
    }
  }

  /** The reader stands at chunk number `low`, and goes no further than chunk number `high`. */
  ghost predicate ReaderAt<T>(s: Pipe<T>, r: Call<T>, high: int)
    requires s.n > 0 && Fits(s, r) && Safe(s, r)
  {
    && Low(s) < |s.chunks| && s.begin.chunk == s.chunks[Low(s)]
    && (PopsChunk(s, r) ==>
          && Low(s) + 1 < |s.chunks| && Low(s) + 1 <= high
          && ReaderLinks(s, r) == {NextOf(s.chunks[Low(s)]), PrevOf(s.chunks[Low(s) + 1])})
  }

  /** `unpush` works at the end of the chain, behind everything flushed. */
  lemma UnwriteApart<T>(s: Pipe<T>, r: Call<T>)
    requires Inv(s) && s.wphase.WIdle? && s.f != s.back && Safe(s, Unwrite)
    requires Fits(s, r) && Safe(s, r) && !ByWriter(r)
    ensures WriterLinks(s, Unwrite) !! ReaderLinks(s, r)
    ensures WriterTurns(s, Unwrite) !! ReaderChunks(s, r) && ReaderTurns(s, r) !! WriterChunks(s, Unwrite)
  {
    var (k, o) := Coord(s.n, s.last);
    UnwriteIsSafe(s);
    UnpushEnds(s);
    HoldsChain(s);
    ReaderPlace(s, r);
    UnwritePlace(s, k, o);
    CoordGrows(s.n, s.front, s.last);
    if PopsChunk(s, r) { PopBelow(s, k, o); }
    UnwriteSets(s, r, k, o);
  }

  lemma UnwriteSets<T>(s: Pipe<T>, r: Call<T>, k: nat, o: nat)
    requires s.n > 0 && s.wphase.WIdle? && s.f != s.back && Safe(s, Unwrite) && Fits(s, r) && Safe(s, r)
    requires ChainHeld(s) && EndOfChain(s, k, o) && BackOfChain(s, k, o) && Low(s) <= k < |s.chunks|
    requires Low(s) == k ==> o > 0
    requires ReaderAt(s, r, if o == 0 then k - 1 else k)
    requires WriterLinks(s, Unwrite) == UnwriteLinks(s, k, o)
    requires WriterTurns(s, Unwrite) == if o + 1 == s.n then {s.chunks[k + 1]} else {}
    ensures WriterLinks(s, Unwrite) !! ReaderLinks(s, r)
    ensures WriterTurns(s, Unwrite) !! ReaderChunks(s, r) && ReaderTurns(s, r) !! WriterChunks(s, Unwrite)
  {
  }

  /** The links of `unpush`, by the numbers of the chunks. */
  ghost function UnwriteLinks<T>(s: Pipe<T>, k: nat, o: nat): set<Link>
    requires k < |s.chunks| && (o + 1 == s.n ==> k + 1 < |s.chunks|)
  {
    (if o == 0 then {PrevOf(s.chunks[k])} else {})
    + (if o + 1 == s.n then {PrevOf(s.chunks[k + 1]), NextOf(s.chunks[k])} else {})
  }

  lemma UnwritePlace<T>(s: Pipe<T>, k: nat, o: nat)
    requires s.n > 0 && s.wphase.WIdle? && s.f != s.back && Safe(s, Unwrite)
    requires EndOfChain(s, k, o) && BackOfChain(s, k, o)
    ensures WriterLinks(s, Unwrite) == UnwriteLinks(s, k, o)
    ensures WriterTurns(s, Unwrite) == if o + 1 == s.n then {s.chunks[k + 1]} else {}
  {
  }

  /** A chunk that is popped ends before the position `wp`, so its successor is not the last one. */
  lemma PopBelow<T>(s: Pipe<T>, k: nat, o: nat)
    requires Ordered(s) && s.front + 1 <= s.wp && s.fp < s.last && Coord(s.n, s.last) == (k, o)
    requires Coord(s.n, s.front + 1) == (Low(s) + 1, 0)
    ensures Low(s) + 1 <= k && (o == 0 ==> Low(s) + 1 < k)
  {
    CoordGrows(s.n, s.front + 1, s.last);
  }

  /** Linking works behind the last chunk of the chain, with a chunk that nobody else has. */
  lemma LinkApart<T>(s: Pipe<T>, w: Call<T>, r: Call<T>)
    requires Inv(s) && Fits(s, w) && Safe(s, w) && w.Writing? && s.wphase.WLink?
    requires Fits(s, r) && Safe(s, r) && !ByWriter(r)
    ensures WriterLinks(s, w) !! ReaderLinks(s, r)
    ensures WriterTurns(s, w) !! ReaderChunks(s, r) && ReaderTurns(s, r) !! WriterChunks(s, w)
  {
    HoldsChain(s);
    ReaderPlace(s, r);
    NewIsNew(s, w);
    InRange(s, s.last);
    if PopsChunk(s, r) { InRange(s, s.front + 1); }
    LinkSets(s, w, r);
  }

  lemma NewIsNew<T>(s: Pipe<T>, w: Call<T>)
    requires Inv(s) && Fits(s, w) && w.Writing? && s.wphase.WLink?
    ensures NewOne(s, w) !in ReaderHand(s) && forall i | Low(s) <= i < |s.chunks| :: s.chunks[i] != NewOne(s, w)
  {
    var one := NewChunk(s, w.id);
    if NewOne(s, w) in ReaderHand(s) { HandsDiffer(s, NewOne(s, w)); }
  }

  lemma LinkSets<T>(s: Pipe<T>, w: Call<T>, r: Call<T>)
    requires s.n > 0 && Fits(s, w) && Safe(s, w) && w.Writing? && s.wphase.WLink? && Fits(s, r) && Safe(s, r)
    requires ChainHeld(s) && ReaderAt(s, r, |s.chunks| - 1)
    requires s.end.chunk == s.chunks[|s.chunks| - 1] && s.back.chunk == s.chunks[|s.chunks| - 1]
    requires NewOne(s, w) !in ReaderHand(s) && forall i | Low(s) <= i < |s.chunks| :: s.chunks[i] != NewOne(s, w)
    ensures WriterLinks(s, w) !! ReaderLinks(s, r)
    ensures WriterTurns(s, w) !! ReaderChunks(s, r) && ReaderTurns(s, r) !! WriterChunks(s, w)
  {
  }

  /**
    In every reachable state: no step that the reader can take touches a link that the writer's next
    step follows or writes, or a chunk that it takes into use or frees, nor the other way round.
  */
  lemma StepsApart<T>(n: nat, c0: nat, c1: nat, calls: seq<Call<T>>, w: Call<T>, r: Call<T>)
    requires n > 0 && c0 != c1
    ensures var s := Run(n, c0, c1, calls);
      Fits(s, w) && Fits(s, r) && ByWriter(w) && !ByWriter(r) ==>
        && Safe(s, w) && Safe(s, r)
        && WriterLinks(s, w) !! ReaderLinks(s, r)
        && WriterTurns(s, w) !! ReaderChunks(s, r) && ReaderTurns(s, r) !! WriterChunks(s, w)
  {
    var s := Run(n, c0, c1, calls);
    if Fits(s, w) && Fits(s, r) && ByWriter(w) && !ByWriter(r) {
      NextKeeps(s, w);
      NextKeeps(s, r);
      Apart(s, w, r);
    }
  }

  lemma Apart<T>(s: Pipe<T>, w: Call<T>, r: Call<T>)
    requires Inv(s) && Fits(s, w) && Safe(s, w) && ByWriter(w) && Fits(s, r) && Safe(s, r) && !ByWriter(r)
    ensures WriterLinks(s, w) !! ReaderLinks(s, r)
    ensures WriterTurns(s, w) !! ReaderChunks(s, r) && ReaderTurns(s, r) !! WriterChunks(s, w)
  {
    if w.Unwrite? && s.f != s.back {
      UnwriteApart(s, r);
    } else if w.Writing? && s.wphase.WLink? {
      LinkApart(s, w, r);
    } else {
      EndsHeld(s, w, r);
    }
  }

  /** The reader frees neither of the chunks at the writer's end. */
  lemma EndsHeld<T>(s: Pipe<T>, w: Call<T>, r: Call<T>)
    requires Inv(s) && Fits(s, w) && Safe(s, w) && Fits(s, r) && Safe(s, r)
    requires WriterLinks(s, w) == {} && WriterTurns(s, w) == {}
    ensures ReaderTurns(s, r) !! WriterChunks(s, w)
  {
    InRange(s, s.last);
    HandsApart(s, Coord(s.n, s.last).0);
    HandsApart(s, |s.chunks| - 1);
    if !MidPush(s) {
      if Coord(s.n, s.last + 1).1 != 0 { assert Coord(s.n, s.last + 1).0 == Coord(s.n, s.last).0; }
    }
  }
}
