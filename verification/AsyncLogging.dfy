/**
  The buffers of AsyncLogging.cc. Every method is one step of an appending thread or of the writer
  thread: what a thread does while it holds the lock is one step, what the writer does without the
  lock touches only what it owns. A buffer belongs to exactly one owner.
*/
module AsyncLogging {
  const LARGE_BUFFER: nat := 4000 * 1000
  const MAX_BATCH: nat := 25

  class Buffer {
    var text: string

    constructor ()
      ensures text == ""
    {
      text := "";
    }

    method Append(line: string)
      requires |text| <= LARGE_BUFFER
      modifies this
      ensures text == if LARGE_BUFFER - |old(text)| > |line| then old(text) + line else old(text)
    {
      if LARGE_BUFFER - |text| > |line| { text := text + line; }
    }
  }

  /** What goes to the file: the text of a buffer, or the note that so many buffers were dropped. */
  datatype Piece = Data(text: string) | Dropped(count: nat)

  /** The steps of the writer's loop. */
  datatype Phase = Top | Taken | Writing

  datatype Step = Line(line: string) | Writer

  // ------------------------------------------------------------ specification

  /** The first `n` of the texts `ss`, one after the other. */
  ghost function Concat(ss: seq<string>, n: nat): string
    requires n <= |ss|
  {
    if n == 0 then "" else Concat(ss, n - 1) + ss[n - 1]
  }

  lemma {:induction false} ConcatPrefix(ss: seq<string>, s: string, n: nat)
    requires n <= |ss|
    ensures Concat(ss + [s], n) == Concat(ss, n)
  {
    if n > 0 { ConcatPrefix(ss, s, n - 1); }
  }

  lemma ConcatOneMore(ss: seq<string>, s: string)
    ensures Concat(ss + [s], |ss| + 1) == Concat(ss, |ss|) + s
  {
    ConcatPrefix(ss, s, |ss|);
  }

  /** All texts of the first `n` batches. */
  ghost function Handed(batches: seq<seq<string>>, n: nat): string
    requires n <= |batches|
  {
    if n == 0 then "" else Handed(batches, n - 1) + Concat(batches[n - 1], |batches[n - 1]|)
  }

  /** Of a batch of more than 25 buffers only the first two are kept. */
  ghost function Kept(batch: seq<string>): seq<string> {
    if |batch| > MAX_BATCH then batch[..2] else batch
  }

  ghost function Note(batch: seq<string>): seq<Piece> {
    if |batch| > MAX_BATCH then [Dropped(|batch| - 2)] else []
  }

  /** The file after the first `n` of the texts `ts` have been added. */
  ghost function Added(file: seq<Piece>, ts: seq<string>, n: nat): seq<Piece>
    requires n <= |ts|
  {
    if n == 0 then file else Added(file, ts, n - 1) + [Data(ts[n - 1])]
  }

  /** What the file gets for the first `n` batches: for each the note, if it is too large, and the buffers kept. */
  ghost function Output(batches: seq<seq<string>>, n: nat): seq<Piece>
    requires n <= |batches|
  {
    if n == 0 then [] else WithBatch(Output(batches, n - 1), batches[n - 1])
  }

  ghost function WithBatch(file: seq<Piece>, batch: seq<string>): seq<Piece> {
    Added(file + Note(batch), Kept(batch), |Kept(batch)|)
  }

  lemma {:induction false} EarlierBatches(batches: seq<seq<string>>, batch: seq<string>, n: nat)
    requires n <= |batches|
    ensures Handed(batches + [batch], n) == Handed(batches, n) && Output(batches + [batch], n) == Output(batches, n)
  {
    if n > 0 { EarlierBatches(batches, batch, n - 1); }
  }

  lemma HandOver(batches: seq<seq<string>>, full: seq<string>, s: string)
    ensures Output(batches + [full + [s]], |batches|) == Output(batches, |batches|)
    ensures Handed(batches + [full + [s]], |batches| + 1) + Concat([], 0) + "" ==
      Handed(batches, |batches|) + Concat(full, |full|) + s
  {
    var h, batch := Handed(batches, |batches|), full + [s];
    EarlierBatches(batches, batch, |batches|);
    ConcatOneMore(full, s);
    assert Handed(batches + [batch], |batches| + 1) == h + (Concat(full, |full|) + s);
    assert Concat([], 0) == "";
    Rejoin(h, Concat(full, |full|), s, "");
    assert h + (Concat(full, |full|) + s) + "" + "" == h + (Concat(full, |full|) + s) + "";
  }

  lemma Rejoin(a: string, b: string, c: string, d: string)
    ensures a + b + (c + d) == a + b + c + d && a + (b + c) + "" == a + b + c
  {
  }

  /** The writer holds the last batch, and the file has got everything before it. */
  ghost predicate IsTaken(batches: seq<seq<string>>, held: seq<string>, output: seq<Piece>) {
    && |batches| > 0 && held == batches[|batches| - 1]
    && output == Output(batches, |batches| - 1)
  }

  /** The writer holds what is kept of the last batch, and the file has got `written` buffers of it. */
  ghost predicate IsWriting(batches: seq<seq<string>>, held: seq<string>, output: seq<Piece>, written: nat) {
    && |batches| > 0 && held == Kept(batches[|batches| - 1]) && written <= |held|
    && output == Added(Output(batches, |batches| - 1) + Note(batches[|batches| - 1]), held, written)
  }

  lemma CutStarts(batches: seq<seq<string>>, held: seq<string>, output: seq<Piece>)
    requires IsTaken(batches, held, output)
    ensures IsWriting(batches, Kept(held), output + Note(held), 0)
    ensures |held| > 0 ==> |Kept(held)| > 0
    ensures |held| > 1 ==> |Kept(held)| > 1
  {
  }

  lemma OneMoreWritten(batches: seq<seq<string>>, held: seq<string>, output: seq<Piece>, written: nat)
    requires IsWriting(batches, held, output, written) && written < |held|
    ensures IsWriting(batches, held, output + [Data(held[written])], written + 1)
  {
  }

  lemma AllWritten(batches: seq<seq<string>>, held: seq<string>, output: seq<Piece>)
    requires IsWriting(batches, held, output, |held|)
    ensures output == Output(batches, |batches|)
  {
  }

  // ------------------------------------------------------------ what is lost

  /** The text of the file without the notes. */
  ghost function FileText(file: seq<Piece>): string {
    if file == [] then ""
    else
      var last := file[|file| - 1];
      FileText(file[..|file| - 1]) + if last.Data? then last.text else ""
  }

  lemma FileTextMore(file: seq<Piece>, p: Piece)
    ensures FileText(file + [p]) == FileText(file) + if p.Data? then p.text else ""
  {
    assert (file + [p])[..|file|] == file;
  }

  lemma {:induction false} AddedText(file: seq<Piece>, ts: seq<string>, n: nat)
    requires n <= |ts|
    ensures FileText(Added(file, ts, n)) == FileText(file) + Concat(ts, n)
  {
    if n == 0 {
      assert FileText(file) + "" == FileText(file);
    } else {
      AddedText(file, ts, n - 1);
      FileTextMore(Added(file, ts, n - 1), Data(ts[n - 1]));
      Rejoin(FileText(file), Concat(ts, n - 1), ts[n - 1], "");
    }
  }

  /** How many buffers the file has got or says have been dropped. */
  ghost function BuffersIn(file: seq<Piece>): nat {
    if file == [] then 0
    else
      var last := file[|file| - 1];
      BuffersIn(file[..|file| - 1]) + if last.Data? then 1 else last.count
  }

  lemma BuffersMore(file: seq<Piece>, p: Piece)
    ensures BuffersIn(file + [p]) == BuffersIn(file) + if p.Data? then 1 else p.count
  {
    assert (file + [p])[..|file|] == file;
  }

  lemma {:induction false} AddedBuffers(file: seq<Piece>, ts: seq<string>, n: nat)
    requires n <= |ts|
    ensures BuffersIn(Added(file, ts, n)) == BuffersIn(file) + n
  {
    if n > 0 {
      AddedBuffers(file, ts, n - 1);
      BuffersMore(Added(file, ts, n - 1), Data(ts[n - 1]));
    }
  }

  /** How many buffers the first `n` batches have. */
  ghost function BuffersOf(batches: seq<seq<string>>, n: nat): nat
    requires n <= |batches|
  {
    if n == 0 then 0 else BuffersOf(batches, n - 1) + |batches[n - 1]|
  }

  /** Every buffer handed over is in the file or counted in a note. */
  lemma {:induction false} EveryBufferCounts(batches: seq<seq<string>>, n: nat)
    requires n <= |batches|
    ensures BuffersIn(Output(batches, n)) == BuffersOf(batches, n)
  {
    if n > 0 {
      EveryBufferCounts(batches, n - 1);
      BatchCounts(Output(batches, n - 1), batches[n - 1]);
    }
  }

  lemma BatchCounts(file: seq<Piece>, batch: seq<string>)
    ensures BuffersIn(WithBatch(file, batch)) == BuffersIn(file) + |batch|
  {
    AddedBuffers(file + Note(batch), Kept(batch), |Kept(batch)|);
    if |batch| > MAX_BATCH { BuffersMore(file, Dropped(|batch| - 2)); } else { assert file + [] == file; }
  }

  /** The file gets all text that is handed over as long as no batch has more than 25 buffers. */
  lemma {:induction false} NothingLost(batches: seq<seq<string>>, n: nat)
    requires n <= |batches| && forall i | 0 <= i < n :: |batches[i]| <= 25
    ensures FileText(Output(batches, n)) == Handed(batches, n)
  {
    if n > 0 {
      var batch, file := batches[n - 1], Output(batches, n - 1);
      NothingLost(batches, n - 1);
      assert file + Note(batch) == file && Kept(batch) == batch;
      AddedText(file, batch, |batch|);
    }
  }

  /** Of a larger batch the file gets the first two buffers behind a note that counts the others. */
  lemma TwoKept(batches: seq<seq<string>>, n: nat)
    requires 0 < n <= |batches| && |batches[n - 1]| > 25
    ensures var batch := batches[n - 1];
      Output(batches, n) == Output(batches, n - 1) + [Dropped(|batch| - 2), Data(batch[0]), Data(batch[1])]
  {
    var batch := batches[n - 1];
    var file := Output(batches, n - 1) + Note(batch);
    var two := batch[..2];
    assert Added(file, two, 2) == Added(file, two, 1) + [Data(two[1])] && Added(file, two, 1) == file + [Data(two[0])];
  }

  // ------------------------------------------------------------------ buffers

  /** The texts of the buffers `bs` are `ts`. */
  ghost predicate Hold(bs: seq<Buffer>, ts: seq<string>)
    reads bs
  {
    |bs| == |ts| && forall i :: 0 <= i < |bs| ==> bs[i].text == ts[i]
  }

  ghost predicate Distinct(bs: seq<Buffer>) {
    forall i, j :: 0 <= i < j < |bs| ==> bs[i] != bs[j]
  }

  ghost predicate Apart(bs: seq<Buffer>, cs: seq<Buffer>) {
    forall b :: b in bs ==> b !in cs
  }

  ghost predicate NotIn(b: Buffer?, bs: seq<Buffer>, cs: seq<Buffer>) {
    b != null ==> b !in bs && b !in cs
  }

  ghost predicate Different(a: Buffer, b: Buffer, c: Buffer, d: Buffer) {
    a != b && a != c && a != d && b != c && b != d && c != d
  }

  class AsyncLogging {
    var current: Buffer
    var next: Buffer?
    var buffers: seq<Buffer>
    var new1: Buffer?
    var new2: Buffer?
    var toWrite: seq<Buffer>
    var phase: Phase
    var written: nat
    ghost var repr: set<Buffer>
    ghost var full: seq<string>
    ghost var held: seq<string>
    ghost var lines: seq<string>
    ghost var batches: seq<seq<string>>
    ghost var output: seq<Piece>

    /** All buffers are in `repr`. */
    ghost predicate Covered()
      reads this
    {
      && current in repr && (next != null ==> next in repr)
      && (new1 != null ==> new1 in repr) && (new2 != null ==> new2 in repr)
      && (forall b :: b in buffers ==> b in repr) && (forall b :: b in toWrite ==> b in repr)
    }

    /** Every buffer has one owner. */
    ghost predicate Unique()
      reads this
    {
      && Distinct(buffers) && Distinct(toWrite) && Apart(buffers, toWrite)
      && NotIn(current, buffers, toWrite) && NotIn(next, buffers, toWrite)
      && NotIn(new1, buffers, toWrite) && NotIn(new2, buffers, toWrite)
      && current != next && current != new1 && current != new2
      && (next != null ==> next != new1 && next != new2) && (new1 != null ==> new1 != new2)
    }

    /** The batch the writer is at. */
    ghost predicate AtBatch()
      reads this
    {
      |batches| > 0 && new1 == null && |held| > 0 && (new2 == null ==> |held| > 1)
    }

    /** What the file has got so far, and what the writer holds, for each step of its loop. */
    ghost predicate WriterState()
      reads this
    {
      match phase
      case Top => new1 != null && new2 != null && held == [] && output == Output(batches, |batches|)
      case Taken => AtBatch() && IsTaken(batches, held, output)
      case Writing => AtBatch() && IsWriting(batches, held, output, written)
    }

    ghost predicate Empty(b: Buffer?)
      reads b
    {
      b == null || b.text == ""
    }

    /** `full` and `held` are the texts of the buffers in the queue and with the writer; spare buffers are empty. */
    ghost predicate Contents()
      reads this, next, buffers, new1, new2, toWrite
    {
      && Hold(buffers, full) && Hold(toWrite, held)
      && Empty(next) && Empty(new1) && Empty(new2)
    }

    ghost predicate Owners()
      reads this, next, buffers, new1, new2, toWrite
    {
      Covered() && Unique() && Contents() && (next == null ==> |buffers| > 0)
    }

    /**
      All lines are in the batches handed to the writer and in the buffers after them, in order; an
      absent spare buffer means that a full buffer waits for the writer.
    */
    ghost predicate Valid()
      reads this, current, next, buffers, new1, new2, toWrite
    {
      && Owners() && WriterState()
      && Handed(batches, |batches|) + Concat(full, |full|) + current.text == Concat(lines, |lines|)
    }

    constructor ()
      ensures Owners() && WriterState() && current.text == "" && fresh(repr)
      ensures full == [] && batches == [] && lines == [] && output == []
    {
      var b0 := new Buffer();
      var b1 := new Buffer();
      var b2 := new Buffer();
      var b3 := new Buffer();
      current, next, new1, new2 := b0, b1, b2, b3;
      buffers, toWrite, phase, written := [], [], Top, 0;
      full, held, lines, batches, output := [], [], [], [], [];
      repr := {b0, b1, b2, b3};
      new;
      AllSpare();
    }

    /** A new logger is valid. */
    lemma NewIsValid()
      requires Owners() && WriterState() && current.text == ""
      requires full == [] && batches == [] && lines == []
      ensures Valid()
    {
    }

    /** Four empty buffers, and none with the writer or in its queue. */
    lemma AllSpare()
      requires next != null && new1 != null && new2 != null && repr == {current, next, new1, new2}
      requires Different(current, next, new1, new2)
      requires buffers == [] && toWrite == [] && full == [] && held == []
      requires next.text == "" && new1.text == "" && new2.text == ""
      ensures Owners()
    {
      assert Covered() && Contents();
    }

    /** Writes to the current buffer change no other buffer. */
    method Put(line: string)
      requires Owners() && |current.text| <= LARGE_BUFFER
      modifies current
      ensures Owners()
      ensures current.text == if LARGE_BUFFER - |old(current.text)| > |line| then old(current.text) + line
        else old(current.text)
    {
      current.Append(line);
    }

    method Store(line: string)
      requires Valid()
      modifies this`lines, current
      ensures Valid()
      ensures lines == if LARGE_BUFFER - |old(current.text)| > |line| then old(lines) + [line] else old(lines)
    {
      if LARGE_BUFFER - |current.text| > |line| {
        Rejoin(Handed(batches, |batches|), Concat(full, |full|), current.text, line);
        ConcatOneMore(lines, line);
        lines := lines + [line];
        Put(line);
      }
    }

    /** The full buffer goes to the writer's queue; the spare one, or a new one, takes its place. */
    method NextBuffer()
      requires Owners()
      modifies this`current, this`next, this`buffers, this`full, this`repr
      ensures Owners() && current.text == "" && (current == old(next) || fresh(current))
      ensures fresh(repr - old(repr))
      ensures full == old(full) + [old(current.text)]
    {
      buffers, full := buffers + [current], full + [current.text];
      if next != null {
        current := next;
        next := null;
      } else {
        current := new Buffer();
        repr := repr + {current};
      }
    }

    /** The same with the text of all buffers: nothing is lost or moved. */
    method MakeRoom()
      requires Valid()
      modifies this`current, this`next, this`buffers, this`full, this`repr
      ensures Valid() && fresh(repr - old(repr))
      ensures current.text == "" && (current == old(next) || fresh(current))
    {
      ConcatOneMore(full, current.text);
      Rejoin(Handed(batches, |batches|), Concat(full, |full|), current.text, "");
      NextBuffer();
    }

    /** `append`; a line that no buffer can hold is lost, as `FixedBuffer::append` ignores it. */
    method Append(line: string)
      requires Valid()
      modifies this`current, this`next, this`buffers, this`full, this`repr, this`lines, current, next
      ensures Valid() && fresh(repr - old(repr))
      ensures lines == if |line| < LARGE_BUFFER then old(lines) + [line] else old(lines)
    {
      if LARGE_BUFFER - |current.text| <= |line| { MakeRoom(); }
      Store(line);
    }

    /** The writer takes all buffers, the current one included, and leaves its own two in their place. */
    method TakeBuffers()
      requires Owners() && new1 != null && new2 != null && toWrite == []
      modifies this`current, this`next, this`buffers, this`full, this`new1, this`new2, this`toWrite, this`held
      ensures Owners() && next != null && new1 == null && (new2 == null ==> |held| > 1)
      ensures held == old(full) + [old(current.text)] && full == [] && current.text == ""
    {
      held, full := full + [current.text], [];
      toWrite, buffers := buffers + [current], [];
      current, new1 := new1, null;
      if next == null { next, new2 := new2, null; }
    }

    /** What the writer does while it holds the lock. */
    method Rotate()
      requires Valid() && phase == Top
      modifies this`current, this`next, this`buffers, this`full, this`new1, this`new2, this`toWrite, this`held,
        this`batches, this`phase
      ensures Valid() && phase == Taken && next != null
      ensures batches == old(batches) + [old(full) + [old(current.text)]]
    {
      assert new1 != null && new1.text == "";
      assert new2 != null && new2.text == "";
      assert toWrite == [];
      HandOver(batches, full, current.text);
      TakeBuffers();
      batches := batches + [held];
      phase := Taken;
    }

    /** Drops all but the first two buffers of a batch that is too large; what is left is to be written. */
    method CutBatch()
      requires Owners()
      modifies this`toWrite, this`held, this`output, this`phase, this`written
      ensures Owners() && held == Kept(old(held)) && output == old(output) + Note(old(held))
      ensures phase == Writing && written == 0
    {
      written, phase := 0, Writing;
      if |toWrite| > MAX_BATCH {
        output := output + [Dropped(|toWrite| - 2)];
        toWrite, held := toWrite[..2], held[..2];
      }
    }

    /** The step from taking a batch to writing it. */
    method Trim()
      requires Valid() && phase == Taken
      modifies this`toWrite, this`held, this`output, this`phase, this`written
      ensures Valid() && phase == Writing && written == 0
    {
      assert |toWrite| > 0;
      CutStarts(batches, held, output);
      CutBatch();
      NowWriting();
    }

    /** The writer may start with what is kept of its batch. */
    lemma NowWriting()
      requires Owners() && phase == Writing && AtBatch() && IsWriting(batches, held, output, written)
      requires Handed(batches, |batches|) + Concat(full, |full|) + current.text == Concat(lines, |lines|)
      ensures Valid()
    {
    }

    /** Writes the next buffer of the batch. */
    method WriteBuffer()
      requires Valid() && phase == Writing && written < |toWrite|
      modifies this`output, this`written
      ensures Valid() && phase == Writing && written == old(written) + 1
    {
      OneMoreWritten(batches, held, output, written);
      output := output + [Data(toWrite[written].text)];
      written := written + 1;
    }

    /** All but two of the written buffers are freed, and the last one left becomes the writer's first spare. */
    method RecycleFirst()
      requires Owners() && new1 == null && |toWrite| > 0
      modifies this`toWrite, this`held, this`new1, toWrite
      ensures Owners() && new1 != null && |toWrite| == (if |old(toWrite)| > 1 then 1 else 0)
      ensures toWrite <= old(toWrite)
    {
      if |toWrite| > 2 { toWrite, held := toWrite[..2], held[..2]; }
      new1 := toWrite[|toWrite| - 1];
      toWrite, held := toWrite[..|toWrite| - 1], held[..|held| - 1];
      new1.text := "";
    }

    /** If the second spare is missing too, the last buffer left takes its place. */
    method RecycleSecond()
      requires Owners() && (new2 == null ==> |toWrite| > 0)
      modifies this`toWrite, this`held, this`new2, toWrite
      ensures Owners() && new2 != null && held == []
    {
      if new2 == null {
        new2 := toWrite[|toWrite| - 1];
        toWrite, held := toWrite[..|toWrite| - 1], held[..|held| - 1];
        new2.text := "";
      }
      toWrite, held := [], [];
    }

    /** Two of the written buffers become the writer's own again; the others are freed. */
    method Recycle()
      requires Owners() && new1 == null && |toWrite| > 0 && (new2 == null ==> |toWrite| > 1)
      modifies this`toWrite, this`held, this`new1, this`new2, toWrite
      ensures Owners() && new1 != null && new2 != null && held == []
    {
      RecycleFirst();
      RecycleSecond();
    }

    /** The end of the loop. */
    method Reclaim()
      requires Valid() && phase == Writing && written == |toWrite|
      modifies this`toWrite, this`held, this`new1, this`new2, this`phase, toWrite
      ensures Valid() && phase == Top && output == Output(batches, |batches|)
    {
      AllWritten(batches, held, output);
      Recycle();
      phase := Top;
    }

    method WriteOrReclaim()
      requires Valid() && phase == Writing
      modifies this`toWrite, this`held, this`new1, this`new2, this`phase, this`output, this`written, toWrite
      ensures Valid()
      ensures if old(written < |toWrite|) then phase == Writing && written == old(written) + 1 else phase == Top
    {
      if written < |toWrite| { WriteBuffer(); } else { Reclaim(); }
    }

    /** The writer's next step. */
    method WriterStep()
      requires Valid()
      modifies this, toWrite
      ensures Valid() && lines == old(lines) && repr == old(repr)
      ensures batches == if old(phase.Top?) then old(batches) + [old(full) + [old(current.text)]] else old(batches)
      ensures phase == match old(phase)
        case Top => Taken
        case Taken => Writing
        case Writing => if old(written < |toWrite|) then Writing else Top
      ensures phase == Writing ==> written == if old(phase.Taken?) then 0 else old(written) + 1
    {
      match phase
      case Top => Rotate();
      case Taken => Trim();
      case Writing => WriteOrReclaim();
    }

    method Perform(step: Step)
      requires Valid()
      modifies this, repr
      ensures Valid() && fresh(repr - old(repr)) && lines == old(lines) + StoredBy(step)
      ensures step.Line? ==> phase == old(phase) && batches == old(batches) && output == old(output)
      ensures step.Writer? ==> phase != old(phase) || (phase == Writing && written == old(written) + 1)
    {
      match step
      case Line(line) => Append(line);
      case Writer => WriterStep();
    }

    /** At the top of the writer's loop the stored lines are in the file, the queue and the current buffer. */
    lemma FileHasAll()
      requires Valid() && phase == Top && forall i | 0 <= i < |batches| :: |batches[i]| <= 25
      ensures FileText(output) + Concat(full, |full|) + current.text == Concat(lines, |lines|)
    {
      NothingLost(batches, |batches|);
    }

    /**
      Any interleaving of appending threads and the writer: all lines that fit a buffer are, in
      order, in the batches handed to the writer, the queue and the current buffer, and at the top
      of the writer's loop the file holds exactly what the batches call for.
    */
    method Run(steps: seq<Step>)
      requires Valid()
      modifies this, repr
      ensures Valid() && lines == old(lines) + Stored(steps, |steps|)
      ensures Handed(batches, |batches|) + Concat(full, |full|) + current.text == Concat(lines, |lines|)
      ensures Hold(buffers, full) && (next == null ==> |buffers| > 0)
      ensures phase == Top ==> output == Output(batches, |batches|)
    {
      for i := 0 to |steps|
        invariant Valid() && fresh(repr - old(repr)) && lines == old(lines) + Stored(steps, i)
      {
        StoredOneMore(old(lines), steps, i);
        Perform(steps[i]);
      }
    }
  }

  /** A line too long for any buffer is not stored. */
  ghost function StoredBy(step: Step): seq<string> {
    match step
    case Line(line) => if |line| < LARGE_BUFFER then [line] else []
    case Writer => []
  }

  ghost function Stored(steps: seq<Step>, n: nat): seq<string>
    requires n <= |steps|
  {
    if n == 0 then [] else Stored(steps, n - 1) + StoredBy(steps[n - 1])
  }

  lemma StoredOneMore(lines: seq<string>, steps: seq<Step>, n: nat)
    requires n < |steps|
    ensures lines + Stored(steps, n + 1) == lines + Stored(steps, n) + StoredBy(steps[n])
  {
  }
}
