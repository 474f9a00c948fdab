/** Whole runs of the pipe: every interleaving of one writer and one reader. */
module YPipeRuns {
  import opened Options
  import opened YPipe

  /** A new pipe, after the constructor has pushed the terminator; `c1` is used if chunks hold one slot. */
  function Start<T>(n: nat, c0: nat, c1: nat): Pipe<T>
    requires n > 0 && c0 != c1
  {
    var a := Addr(c0, 0);
    var mem := if n == 1 then Mem(map[], map[c0 := c1], map[c1 := c0], {c0, c1}, None)
               else Mem(map[], map[], map[], {c0}, None);
    Pipe(n, mem, Some(a), WIdle, a, if n == 1 then Addr(c1, 0) else Addr(c0, 1), a, a, RIdle, a, Some(a),
         if n == 1 then [c0, c1] else [c0], 0, 0, 0, 0, Some(0), [], [], false)
  }

  lemma StartInv<T>(n: nat, c0: nat, c1: nat)
    requires n > 0 && c0 != c1
    ensures Inv<T>(Start(n, c0, c1))
  {
    var s: Pipe<T> := Start(n, c0, c1);
    assert Coord(n, 1) == if n == 1 then (1, 0) else (0, 1);
    assert multiset({c0, c1}) == multiset([c0, c1]);
    assert multiset({c0}) == multiset([c0]);
    assert Chain(s) == s.chunks;
  }

  lemma WriterCall<T>(s: Pipe<T>, call: Call<T>)
    requires Inv(s) && Fits(s, call) && ByWriter(call)
    ensures Safe(s, call) && Inv(Next(s, call))
  {
    if call.Write? {
      BeginWrite(s, call.v, call.incomplete);
    } else if call.Flush? {
      BeginFlush(s);
    } else if call.Writing? {
      WriterKeeps(s, call.id);
    } else if s.f != s.back {
      UnwriteIsSafe(s);
      UnwriteStep(s);
    }
  }

  lemma ReaderCall<T>(s: Pipe<T>, call: Call<T>)
    requires Inv(s) && Fits(s, call) && !ByWriter(call)
    ensures Safe(s, call) && Inv(Next(s, call))
  {
    if call.Reading? { ReaderKeeps(s); } else { LookStep(s, call.Read?); }
  }

  lemma SameSize<T>(s: Pipe<T>, call: Call<T>)
    requires Fits(s, call) && Safe(s, call)
    ensures Next(s, call).n == s.n
  {
  }

  /** Every call that fits is safe, and keeps the invariant. */
  lemma NextKeeps<T>(s: Pipe<T>, call: Call<T>)
    requires Inv(s) && Fits(s, call)
    ensures Safe(s, call) && Inv(Next(s, call)) && Next(s, call).n == s.n
  {
    if ByWriter(call) { WriterCall(s, call); } else { ReaderCall(s, call); }
    SameSize(s, call);
  }

  /** The pipe after a run; a call that does not fit the phase of its thread is skipped. */
  ghost function After<T>(s: Pipe<T>, calls: seq<Call<T>>): (s': Pipe<T>)
    requires Inv(s)
    ensures Inv(s') && s'.n == s.n
  {
    if calls == [] then s
    else
      var t, call := After(s, calls[..|calls| - 1]), calls[|calls| - 1];
      if Fits(t, call) then NextKeeps(t, call); Next(t, call) else t
  }

  /** The pipe after a run from the constructor on. */
  ghost function Run<T>(n: nat, c0: nat, c1: nat, calls: seq<Call<T>>): (s: Pipe<T>)
    requires n > 0 && c0 != c1
    ensures Inv(s) && s.n == n
  {
    StartInv<T>(n, c0, c1);
    After(Start(n, c0, c1), calls)
  }

  /**
    In every interleaving: what has been read is a prefix of the flushed items, and those of the
    completed ones; `c` is `w` or NULL; NULL means that everything flushed has been read; and no
    call that a thread can make next touches memory that is not allocated.
  */
  lemma PipeSafety<T>(n: nat, c0: nat, c1: nat, calls: seq<Call<T>>)
    requires n > 0 && c0 != c1
    ensures var s := Run(n, c0, c1, calls);
      && s.wp <= s.fp <= |s.sent| && s.got <= s.sent[..s.wp]
      && (s.rphase.RTake? ==> |s.got| < s.wp)
      && s.c in {None, Some(s.w)}
      && (s.c.None? ==> s.got == s.sent[..s.wp])
      && forall call | Fits(s, call) :: Safe(s, call)
  {
    var s := Run(n, c0, c1, calls);
    forall call | Fits(s, call)
      ensures Safe(s, call)
    {
      NextKeeps(s, call);
    }
  }

  /**
    In every reachable state each test of pointers decides the question about the stream it is
    meant to decide: `unwrite` takes back the newest item exactly if it is incomplete, `flush` does
    nothing exactly if all completed items are flushed, and returns false exactly if the reader
    has gone to sleep since the last flush.
  */
  lemma WriterTestsAreExact<T>(n: nat, c0: nat, c1: nat, calls: seq<Call<T>>)
    requires n > 0 && c0 != c1
    ensures var s := Run(n, c0, c1, calls);
      && (s.wphase.WIdle? ==>
            && (Next(s, Flush).wphase.WCas? <==> s.wp < s.fp)
            && Safe(s, Unwrite)
            && if s.fp == |s.sent| then Next(s, Unwrite) == s else TakesBack(s, Next(s, Unwrite)))
      && (s.wphase.WCas? ==> (WriterStep(s, 0).wphase.WSet? <==> s.asleep) && (s.asleep ==> s.got == s.sent[..s.wp]))
  {
    var s := Run(n, c0, c1, calls);
    if s.wphase.WIdle? { WriterTests(s); }
    if s.wphase.WCas? { WriterCasStep(s, 0); }
  }

  /**
    `check_read` answers true exactly if a flushed item has not been read, whether it has been
    prefetched or not, and `read` then takes the next item of the stream out of its slot.
  */
  lemma ReaderTestsAreExact<T>(n: nat, c0: nat, c1: nat, calls: seq<Call<T>>)
    requires n > 0 && c0 != c1
    ensures var s := Run(n, c0, c1, calls);
      && (s.rphase.RIdle? ==> (Look(s, true).rphase.RTake? <==> s.rp.Some? && |s.got| < s.rp.value))
      && (s.rphase.RIdle? && Look(s, true).rphase.RTake? ==> |s.got| < s.wp)
      && (s.rphase == RCas(true) ==> (ReaderStep(s).rphase.RTake? <==> |s.got| < s.wp))
      && (s.rphase.RTake? ==> s.begin in s.mem.vals && |s.got| < |s.sent| && s.mem.vals[s.begin] == s.sent[|s.got|])
  {
    var s := Run(n, c0, c1, calls);
    if s.rphase.RIdle? { LookStep(s, true); } else { ReaderTests(s); }
  }

  lemma ReaderTests<T>(s: Pipe<T>)
    requires Inv(s)
    ensures s.rphase.RCas? ==> (s.c.Some? && s.c != Some(s.begin) <==> |s.got| < s.wp)
    ensures s.rphase.RTake? ==>
      s.begin in s.mem.vals && |s.got| < |s.sent| && s.mem.vals[s.begin] == s.sent[|s.got|]
  {
    AddressesMeanPositions(s, s.front, s.wp);
    if s.rphase.RTake? {
      assert StoredAt(s.n, s.chunks, s.mem.vals, s.sent, s.front);
    }
  }

  /** `s'` is `s` without the newest item, and the back slot still holds that item. */
  ghost predicate TakesBack<T>(s: Pipe<T>, s': Pipe<T>) {
    s'.back in s'.mem.vals && s.sent == s'.sent + [s'.mem.vals[s'.back]]
  }

  lemma WriterTests<T>(s: Pipe<T>)
    requires Inv(s) && s.wphase.WIdle?
    ensures (s.f == s.back <==> s.fp == |s.sent|) && (s.w == s.f <==> s.wp == s.fp)
    ensures s.f != s.back ==> UnpushSafe(s) && TakesBack(s, Unpush(s))
  {
    UnwriteIsSafe(s);
    AddressesMeanPositions(s, s.wp, s.fp);
    if s.f != s.back { UnwriteStep(s); }
  }

  /**
    The chunked store is a queue in every reachable state: positions from `begin` to `back` have
    pairwise distinct addresses, the slots between them hold the written and not yet popped items
    in order, and every allocated chunk is in exactly one place: the chain, the spare slot, or the
    hands of one thread.
  */
  lemma StoreIsAQueue<T>(n: nat, c0: nat, c1: nat, calls: seq<Call<T>>, p: nat, q: nat)
    requires n > 0 && c0 != c1
    ensures var s := Run(n, c0, c1, calls);
      && At(n, s.chunks, s.begin, s.front) && At(n, s.chunks, s.back, s.last)
      && multiset(s.mem.alive) == multiset(Chain(s)) + AsBag(s.mem.spare) + InTransit(s)
      && (s.front <= p < q <= s.last ==>
            && StoredAt(n, s.chunks, s.mem.vals, s.sent, p)
            && Coord(n, q).0 < |s.chunks| && AddrAt(n, s.chunks, p) != AddrAt(n, s.chunks, q))
  {
    var s := Run(n, c0, c1, calls);
    if s.front <= p < q <= s.last {
      AddressesMeanPositions(s, p, q);
      assert StoredAt(n, s.chunks, s.mem.vals, s.sent, p);
    }
  }
}
