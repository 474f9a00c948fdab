/** The resumable reader of read.c, with the object builders of hiredis.c. */
module Reader {
  import opened Options
  import opened Numbers
  import opened Resp
  import opened ReplyTree
  import opened ReaderStack
  import Resume

  const STACK_SIZE: nat := 9
  const DISCARD_AT: nat := 1024

  /** `seekNewline`: the two nested loops over a stretch of the buffer. */
  method SeekNewline(s: string) returns (r: Option<nat>)
    ensures r == Newline(s)
  {
    var pos, end := 0, |s| - 1;
    while pos < end
      invariant 0 <= pos && (pos <= end || pos == 0)
      invariant forall k | 0 <= k < pos :: !NewlineAt(s, k)
    {
      while pos < end && s[pos] != '\r'
        invariant 0 <= pos <= end
        invariant forall k | 0 <= k < pos :: !NewlineAt(s, k)
      {
        pos := pos + 1;
      }
      if pos == end {
        return None;
      } else {
        if s[pos + 1] == '\n' {
          NewlineIs(s, pos);
          return Some(pos);
        }
        pos := pos + 1;
      }
    }
    return None;
  }

  /** The outcome for an object whose builder asserts that it does not accept every type of parent. */
  ghost function Checked(e: Option<Error>, n: Node, parent: Option<Kind>, r: Reply): Outcome<Reply> {
    if e.Some? then Bad(e.value)
    else if n.kind in {BOOL, DOUBLE} && parent == Some(PUSH) then Bad(AssertFailed)
    else Done(r, "")
  }

  /** The object a line of type `k` denotes, or why it is rejected; `r` is the object as a value. */
  method BuildLine(cfg: Config, k: Kind, text: string) returns (e: Option<Error>, n: Node, ghost r: Reply)
    requires IsLine(k)
    ensures forall parent :: LineReply(cfg, parent, k, text) == Checked(e, n, parent, r)
    ensures e.None? ==> Built([n], 0, r) && !r.Agg?
  {
    e, n, r := None, Leaf(k), Nil;
    if k == INTEGER {
      var v := String2ll(text);
      if v.None? {
        e := Some(BadInteger);
      } else {
        n, r := n.(integer := v.value), Int(v.value);
      }
    } else if k == DOUBLE {
      if |text| >= DOUBLE_SIZE {
        e := Some(DoubleTooLarge);
      } else if !cfg.isDouble(text) {
        e := Some(BadDouble);
      } else {
        n, r := n.(str := text), Double(text);
      }
    } else if k == BOOL {
      var b := text != "" && text[0] in {'t', 'T'};
      n, r := n.(integer := if b then 1 else 0), Bool(b);
    } else if k != NIL {
      n, r := n.(str := text), Text(k, text);
    }
  }

  class Reader {
    const cfg: Config
    var err: Option<Error>
    var buf: string
    var pos: nat
    var task: seq<Task>
    var ridx: int
    var reply: Option<nat>
    /** Every reply object ever allocated. */
    var heap: seq<Node>
    /** The aggregates under construction, as values. */
    ghost var frames: seq<Resume.Frame>

    ghost predicate Consistent()
      reads this
    {
      && pos <= |buf| && |task| >= STACK_SIZE
      && (cfg.dialect.FixedStack? ==> |task| == STACK_SIZE)
      && -1 <= ridx < |task|
      && |frames| == (if ridx < 0 then 0 else ridx)
      && task[0].parent == None
      && (err.Some? ==> ridx == -1 && buf == "" && pos == 0)
    }

    ghost predicate Sound()
      reads this
    {
      && Consistent()
      && Linked(task, heap, frames, None) && Resume.GoodFrames(frames)
      && (frames != [] ==> reply == task[0].obj)
    }

    /** The state between calls. */
    ghost predicate Valid()
      reads this
    {
      Sound() && !Resume.TooDeepNow(cfg, View())
    }

    /** The reader as a value of module Resume. */
    ghost function View(): Resume.State
      requires Consistent()
      reads this
    {
      Resume.State(err, frames, if ridx < 0 then None else task[ridx].kind, buf[pos..])
    }

    /** `redisReaderCreateWithFunctions` */
    constructor (cfg: Config)
      ensures Valid() && View() == Resume.START && this.cfg == cfg && heap == []
    {
      this.cfg := cfg;
      err, buf, pos, ridx, reply := None, "", 0, -1, None;
      task := seq(STACK_SIZE, i => BLANK);
      heap, frames := [], [];
    }

    /** `redisReaderFeed` */
    method Feed(chunk: string) returns (ok: bool)
      requires Valid()
      modifies this
      ensures Valid() && View() == Resume.Feed(old(View()), chunk)
      ensures ok == old(err).None? && heap == old(heap)
    {
      if err.Some? {
        return false;
      }
      if |chunk| >= 1 {
        buf := buf + chunk;
      }
      return true;
    }

    /** `__redisReaderSetError` */
    method SetError(e: Error)
      requires |task| >= STACK_SIZE && (cfg.dialect.FixedStack? ==> |task| == STACK_SIZE) && task[0].parent == None
      modifies this
      ensures Valid() && View() == Resume.Broken(e) && task == old(task) && heap == old(heap)
      ensures reply == None
    {
      reply := None;
      buf, pos := "", 0;
      ridx := -1;
      err := Some(e);
      frames := [];
    }

    /** `readLine` */
    method ReadLine() returns (line: Option<string>)
      requires pos <= |buf|
      modifies this`pos
      ensures var s, n := buf[old(pos)..], Newline(buf[old(pos)..]);
        if n.None? then line == None && pos == old(pos)
        else line == Some(s[..n.value]) && pos <= |buf| && buf[pos..] == s[n.value + 2..]
    {
      var n := SeekNewline(buf[pos..]);
      if n.None? {
        return None;
      }
      line := Some(buf[pos..][..n.value]);
      pos := pos + n.value + 2;
    }

    /**
      The part the `create*Object` functions share: allocate the object, and store it in the slot
      of the parent the current task is working on. False when their assertion about the type of
      the parent fails, which only happens to booleans and doubles directly inside a push.
    */
    method CreateObject(n: Node) returns (ok: bool, p: nat)
      requires Sound() && err.None? && ridx >= 0
      modifies this`heap
      ensures ok == !(n.kind in {BOOL, DOUBLE} && Resume.Parent(frames) == Some(PUSH))
      ensures !ok ==> heap == old(heap)
      ensures ok ==> p == |old(heap)| && |heap| == p + 1 && heap[p] == n
      ensures ok ==> Extends(old(heap), heap) && Linked(task, heap, frames, Some(p))
    {
      p := |heap|;
      if task[ridx].parent.None? {
        assert frames == [] by { Frame0(); }
        HangLinks(task, heap, frames, n);
        heap := heap + [n];
        return true, p;
      }
      TopFrame();
      var parent := task[task[ridx].parent.value].obj.value;
      if n.kind in {BOOL, DOUBLE} && heap[parent].kind == PUSH {
        return false, p;
      }
      HangLinks(task, heap, frames, n);
      heap := Attach(heap + [n], parent, task[ridx].idx, p);
      return true, p;
    }

    lemma Frame0()
      requires Sound() && ridx >= 0 && task[ridx].parent.None?
      ensures frames == []
    {
      assert frames != [] ==> FrameAt(task, heap, frames, |frames| - 1, None);
    }

    lemma TopFrame()
      requires Sound() && ridx >= 0 && task[ridx].parent.Some?
      ensures frames != [] && FrameAt(task, heap, frames, |frames| - 1, None)
    {
    }

    /** The object of the current item is `p`, a finished tree. */
    ghost predicate Finished(p: nat, r: Reply)
      reads this
    {
      && Consistent() && err.None? && ridx >= 0
      && Linked(task, heap, frames, Some(p)) && Built(heap, p, r)
      && Resume.GoodFrames(frames)
      && reply == (if frames == [] then Some(p) else task[0].obj)
    }

    /** What the reader has become after one step, and whether the step succeeded. */
    ghost predicate Did(s: Resume.Step, ok: bool)
      reads this
    {
      && Sound()
      && match s
         case Again(st) => ok && View() == st && ridx >= 0
         case Emit(r, rest) =>
           && ok && err.None? && ridx == -1 && buf[pos..] == rest
           && reply.Some? && Built(heap, reply.value, r)
         case Starved(st) => !ok && View() == st && ridx >= 0
         case Failed(e) => !ok && View() == Resume.Broken(e)
    }

    /** `moveToNextTask` */
    method MoveToNextTask(ghost item: nat, ghost value: Reply)
      requires Finished(item, value)
      modifies this`task, this`ridx, this`frames
      ensures Consistent() && |task| == |old(task)|
      ensures Did(Resume.Place(old(frames), value, buf[pos..]), true)
    {
      ghost var p, r := item, value;
      while ridx >= 0
        invariant ridx >= 0 && Finished(p, r) && |task| == |old(task)|
        invariant Resume.Place(frames, r, buf[pos..]) == Resume.Place(old(frames), value, buf[pos..])
        decreases ridx
      {
        if ridx == 0 {
          ridx := ridx - 1;
          LinkedPrefix(task, task, heap, frames, None);
          return;
        }
        var cur, prv := task[ridx], task[ridx - 1];
        assert FrameAt(task, heap, frames, ridx - 1, Some(p));
        if cur.idx == prv.elements - 1 {
          p, r := CloseAggregate(p, r);
        } else {
          assert cur.idx < prv.elements;
          NextElement(p, r);
          return;
        }
      }
    }

    /** `moveToNextTask`, where the item was the last one of its aggregate. */
    method CloseAggregate(ghost p: nat, ghost r: Reply) returns (ghost q: nat, ghost agg: Reply)
      requires Finished(p, r) && ridx > 0
      requires |frames[ridx - 1].got| + 1 == frames[ridx - 1].n
      modifies this`ridx, this`frames
      ensures Finished(q, agg) && ridx == old(ridx) - 1
      ensures Resume.Place(frames, agg, buf[pos..]) == Resume.Place(old(frames), r, buf[pos..])
    {
      ghost var top := frames[ridx - 1];
      PopLinks(task, heap, frames, p, r, buf[pos..]);
      q, agg := task[ridx - 1].obj.value, Agg(top.kind, top.got + [r]);
      ridx := ridx - 1;
      frames := frames[..ridx];
    }

    /** `moveToNextTask`, where more items of the aggregate follow. */
    method NextElement(ghost p: nat, ghost r: Reply)
      requires Finished(p, r) && ridx > 0
      requires |frames[ridx - 1].got| + 1 < frames[ridx - 1].n
      modifies this`task, this`frames
      ensures Sound() && ridx >= 0 && |task| == |old(task)|
      ensures Resume.Place(old(frames), r, buf[pos..]) == Resume.Again(View())
    {
      NextLinks(task, heap, frames, p, r, buf[pos..]);
      ghost var top := frames[ridx - 1];
      var cur := task[ridx];
      frames := frames[..ridx - 1] + [top.(got := top.got + [r])];
      task := task[ridx := cur.(kind := None, elements := -1, idx := cur.idx + 1)];
    }

    /** Create the object `n` of a finished item, note it if it is the root, and move on. */
    method Deliver(n: Node, ghost r: Reply) returns (ok: bool)
      requires Sound() && err.None? && ridx >= 0
      requires Built([n], 0, r) && (r.Agg? ==> r.elems == [])
      modifies this
      ensures Extends(old(heap), heap)
      ensures Did(if n.kind in {BOOL, DOUBLE} && Resume.Parent(old(frames)) == Some(PUSH)
                  then Resume.Failed(AssertFailed)
                  else Resume.Place(old(frames), r, old(buf[pos..])), ok)
    {
      var created, p := CreateObject(n);
      if !created {
        SetError(AssertFailed);
        return false;
      }
      assert Built(heap, p, r);
      if ridx == 0 {
        reply := Some(p);
      }
      MoveToNextTask(p, r);
      return true;
    }

    /** `processLineItem` */
    method ProcessLineItem() returns (ok: bool)
      requires Sound() && err.None? && ridx >= 0
      requires task[ridx].kind.Some? && IsLine(task[ridx].kind.value)
      modifies this
      ensures Extends(old(heap), heap)
      ensures Did(Resume.TypedStep(cfg, old(View())), ok)
    {
      Resume.TypedLineStep(cfg, View());
      var line := ReadLine();
      if line.None? {
        return false;
      }
      ok := ProcessLine(task[ridx].kind.value, line.value);
    }

    /** The rest of `processLineItem`, once it has its line. */
    method ProcessLine(k: Kind, text: string) returns (ok: bool)
      requires Sound() && err.None? && ridx >= 0 && IsLine(k)
      modifies this
      ensures Extends(old(heap), heap)
      ensures Did(Resume.LineStep(old(frames), LineReply(cfg, Resume.Parent(old(frames)), k, text), old(buf[pos..])),
        ok)
    {
      var e, n, r := BuildLine(cfg, k, text);
      if e.Some? {
        SetError(e.value);
        return false;
      }
      ok := Deliver(n, r);
    }

    /** `processBulkItem` */
    method ProcessBulkItem() returns (ok: bool)
      requires Sound() && err.None? && ridx >= 0
      requires task[ridx].kind.Some? && IsBulk(task[ridx].kind.value)
      modifies this
      ensures Extends(old(heap), heap)
      ensures Did(Resume.TypedStep(cfg, old(View())), ok)
    {
      Resume.TypedBulkStep(cfg, View());
      var k := task[ridx].kind.value;
      var s := buf[pos..];
      var n := SeekNewline(s);
      if n.None? {
        return false;
      }
      var len := String2ll(s[..n.value]);
      if len.None? {
        SetError(BadBulkLength);
        return false;
      }
      ok := ProcessBulkBody(k, len.value, n.value + 2);
    }

    /** The rest of `processBulkItem`, once it knows the length. */
    method ProcessBulkBody(k: Kind, len: int, first: nat) returns (ok: bool)
      requires Sound() && err.None? && ridx >= 0 && pos + first <= |buf| && IsBulk(k)
      modifies this
      ensures Extends(old(heap), heap)
      ensures Did(match BulkBody(k, len, old(buf[pos..]), first)
                  case More => Resume.Starved(old(View()))
                  case Bad(e) => Resume.Failed(e)
                  case Done(r, rest) => Resume.Place(old(frames), r, rest), ok)
    {
      if len < -1 {
        SetError(BulkRange);
        return false;
      }
      if len == -1 {
        ok := DeliverAfter(first, Leaf(NIL), Nil);
        return;
      }
      var bytelen := first + len + 2;
      if pos + bytelen > |buf| {
        return false;
      }
      var s := buf[pos..];
      if k == VERB && (len < 4 || s[first + 3] != ':') {
        SetError(BadVerbatim);
        return false;
      }
      var body := s[first..first + len];
      var n := if k == VERB then Leaf(VERB).(vtype := body[..3], str := body[4..]) else Leaf(k).(str := body);
      ok := DeliverAfter(bytelen, n, BulkReply(k, body));
    }

    /** `r->pos += bytelen`, with the object created before or after. */
    method DeliverAfter(bytelen: nat, n: Node, ghost r: Reply) returns (ok: bool)
      requires Sound() && err.None? && ridx >= 0 && pos + bytelen <= |buf|
      requires Built([n], 0, r) && !r.Agg? && n.kind !in {BOOL, DOUBLE}
      modifies this
      ensures Extends(old(heap), heap)
      ensures Did(Resume.Place(old(frames), r, old(buf[pos..])[bytelen..]), ok)
    {
      assert buf[pos..][bytelen..] == buf[pos + bytelen..];
      pos := pos + bytelen;
      ok := Deliver(n, r);
    }

    /** `redisReaderGrow` */
    method Grow()
      requires Sound() && err.None? && ridx >= 0 && cfg.dialect.Growing?
      modifies this`task
      ensures Sound() && View() == old(View()) && |task| == old(|task|) + STACK_SIZE
    {
      ghost var before := task;
      task := task + seq(STACK_SIZE, i => BLANK);
      LinkedPrefix(before, task, heap, frames, None);
    }

    /** `processAggregateItem` and its older form `processMultiBulkItem` */
    method ProcessAggregateItem() returns (ok: bool)
      requires Sound() && err.None? && ridx >= 0
      requires task[ridx].kind.Some? && IsAggregate(task[ridx].kind.value)
      modifies this
      ensures Extends(old(heap), heap)
      ensures Did(Resume.TypedStep(cfg, old(View())), ok)
    {
      Resume.TypedAggregateStep(cfg, View());
      if cfg.dialect.FixedStack? {
        if ridx == FIXED_STACK_SIZE - 1 {
          SetError(TooDeep);
          return false;
        }
      } else if ridx == |task| - 1 {
        Grow();
      }
      var k := task[ridx].kind.value;
      var h := ReadHeader(k);
      match h {
        case More =>
          ok := false;
        case Bad(e) =>
          SetError(e);
          ok := false;
        case Done(n, _) =>
          ok := ProcessElements(k, n);
      }
    }

    /** The line that opens an aggregate. */
    method ReadHeader(k: Kind) returns (h: Outcome<Option<nat>>)
      requires pos <= |buf|
      modifies this`pos
      ensures h == HeaderLine(cfg, k, old(buf[pos..])) && pos <= |buf|
      ensures h.More? ==> pos == old(pos)
      ensures h.Done? ==> buf[pos..] == h.rest
    {
      var line := ReadLine();
      if line.None? {
        return More;
      }
      var elements := String2ll(line.value);
      if elements.None? {
        return Bad(BadMultiLength);
      }
      if elements.value < -1 || OverLimit(cfg, elements.value) {
        return Bad(MultiRange(elements.value));
      }
      if elements.value == -1 {
        return Done(None, buf[pos..]);
      }
      return Done(Some(if k == MAP then 2 * elements.value else elements.value), buf[pos..]);
    }

    /** The rest of `processAggregateItem`, once it knows the number of elements. */
    method ProcessElements(k: Kind, n: Option<nat>) returns (ok: bool)
      requires Sound() && err.None? && 0 <= ridx < |task| - 1
      requires task[ridx].kind == Some(k) && IsAggregate(k)
      modifies this
      ensures Extends(old(heap), heap)
      ensures Did(Resume.ElementsStep(old(frames), k, n, old(buf[pos..])), ok)
    {
      if n.None? {
        ok := Deliver(Leaf(NIL), Nil);
      } else if n.value == 0 {
        ok := Deliver(Leaf(k), Agg(k, []));
      } else {
        Open(k, n.value);
        ok := true;
      }
    }

    /** The end of `processAggregateItem` for an aggregate with elements. */
    method Open(k: Kind, n: nat)
      requires Sound() && err.None? && 0 <= ridx < |task| - 1
      requires task[ridx].kind == Some(k) && IsAggregate(k) && n > 0
      modifies this
      ensures Extends(old(heap), heap)
      ensures Sound() && ridx >= 0
      ensures View() == Resume.State(None, old(frames) + [Resume.Frame(k, n, [])], None, old(buf[pos..]))
    {
      ghost var inner := Innermost(task, frames);
      if frames != [] {
        assert FrameAt(task, heap, frames, |frames| - 1, None);
      }
      var root := ridx == 0;
      var created, p := CreateObject(Leaf(k).(element := seq(n, i => None)));
      assert created;
      OpenLinks(task, heap, frames, p, k, n);
      task := task[ridx := task[ridx].(elements := n, obj := Some(p))];
      ridx := ridx + 1;
      task := task[ridx := Task(None, -1, 0, None, Some(ridx - 1))];
      frames := frames + [Resume.Frame(k, n, [])];
      if root {
        reply := Some(p);
      }
    }

    /** `processItem` */
    method ProcessItem() returns (ok: bool)
      requires Sound() && err.None? && ridx >= 0
      modifies this
      ensures Extends(old(heap), heap)
      ensures Did(Resume.ItemStep(cfg, old(View())), ok)
    {
      if task[ridx].kind.None? {
        var c := ReadByte();
        if c.None? {
          return false;
        }
        var k := TypeOf(cfg, c.value);
        if k.None? {
          SetError(TypeByte(c.value));
          return false;
        }
        SetKind(k);
      }
      ok := ProcessTyped();
    }

    /** `readBytes(r,1)` */
    method ReadByte() returns (c: Option<char>)
      requires pos <= |buf|
      modifies this`pos
      ensures if old(buf[pos..]) == "" then c == None && pos == old(pos)
              else pos <= |buf| && c == Some(old(buf[pos..])[0]) && buf[pos..] == old(buf[pos..])[1..]
    {
      if |buf| - pos >= 1 {
        c := Some(buf[pos]);
        pos := pos + 1;
      } else {
        c := None;
      }
    }

    /** The switch at the end of `processItem`. */
    method ProcessTyped() returns (ok: bool)
      requires Sound() && err.None? && ridx >= 0 && task[ridx].kind.Some?
      modifies this
      ensures Extends(old(heap), heap)
      ensures Did(Resume.TypedStep(cfg, old(View())), ok)
    {
      var k := task[ridx].kind.value;
      if IsLine(k) {
        ok := ProcessLineItem();
      } else if IsBulk(k) {
        ok := ProcessBulkItem();
      } else {
        ok := ProcessAggregateItem();
      }
    }

    /** `cur->type = ...` */
    method SetKind(k: Option<Kind>)
      requires Sound() && err.None? && ridx >= 0
      modifies this`task
      ensures Sound() && View() == old(View()).(kind := k)
      ensures task == old(task)[ridx := old(task)[ridx].(kind := k)]
    {
      ghost var before := task;
      task := task[ridx := task[ridx].(kind := k)];
      LinkedPrefix(before, task, heap, frames, None);
    }

    /**
      `redisReaderGetReply`: the reply handed out is the one the value-level reader hands out, as a
      finished object tree; objects handed out earlier stay what they were.
    */
    method GetReply() returns (ok: bool, out: Option<nat>)
      requires Valid()
      modifies this
      ensures Valid() && Extends(old(heap), heap)
      ensures var (st, r) := Resume.Get(cfg, old(View()));
        && View() == st && ok == st.err.None?
        && out.Some? == r.Some? && (r.Some? ==> Built(heap, out.value, r.value))
    {
      if err.Some? {
        return false, None;
      }
      if |buf| == 0 {
        Resume.EmptyStarves(cfg, View());
        return true, None;
      }
      if ridx == -1 {
        task := task[0 := Task(None, -1, -1, None, None)];
        ridx := 0;
        reply := None;
      }
      ghost var step := ProcessItems();
      if err.Some? {
        return false, None;
      }
      if pos >= DISCARD_AT {
        buf := buf[pos..];
        pos := 0;
      }
      if ridx == -1 {
        out := reply;
        reply := None;
      } else {
        out := None;
      }
      ok := true;
    }

    /** The loop of `redisReaderGetReply`. */
    method ProcessItems() returns (ghost last: Resume.Step)
      requires Valid() && err.None? && ridx >= 0
      modifies this
      ensures Sound() && !Resume.TooDeepNow(cfg, View()) && Extends(old(heap), heap)
      ensures !last.Again? && Did(last, ridx < 0 && err.None?)
      ensures Answer(last) == Resume.Get(cfg, old(View()))
    {
      var more := true;
      last := Resume.Again(View());
      while ridx >= 0 && more
        invariant Valid() && Extends(old(heap), heap)
        invariant last.Again? ==> more
        invariant Did(last, more)
        invariant Answer(last) == Resume.Get(cfg, old(View()))
        decreases more, |buf| - pos
      {
        ghost var h, st := heap, View();
        more := ProcessItem();
        last := Resume.ItemStep(cfg, st);
        ExtendsTransitive(old(heap), h, heap);
        if last.Starved? {
          Resume.StarvedIsNotTooDeep(cfg, st);
        }
      }
    }

    /** What `Resume.Get` answers once a step has been taken. */
    ghost function Answer(s: Resume.Step): (Resume.State, Option<Reply>)
      requires s.Again? ==> Resume.GoodFrames(s.st.frames)
    {
      match s
      case Again(st) => Resume.Get(cfg, st)
      case Emit(r, rest) => (Resume.State(None, [], None, rest), Some(r))
      case Starved(st) => (st, None)
      case Failed(e) => (Resume.Broken(e), None)
    }
  }

  /** The objects handed out stand for these trees. */
  ghost predicate AllBuilt(h: seq<Node>, out: seq<nat>, trees: seq<Reply>) {
    |out| == |trees| && forall i | 0 <= i < |out| :: Built(h, out[i], trees[i])
  }

  lemma AllBuiltExtends(h: seq<Node>, h': seq<Node>, out: seq<nat>, trees: seq<Reply>)
    requires AllBuilt(h, out, trees) && Extends(h, h')
    ensures AllBuilt(h', out, trees)
  {
    forall i | 0 <= i < |out|
      ensures Built(h', out[i], trees[i])
    {
      BuiltExtends(h, h', out[i], trees[i]);
    }
  }

  /** One operation of a client. */
  method Act(reader: Reader, op: Resume.Op, out: seq<nat>, ghost trees: seq<Reply>) returns (out': seq<nat>)
    requires reader.Valid() && AllBuilt(reader.heap, out, trees)
    modifies reader
    ensures reader.Valid()
    ensures var (st, more) := Resume.Perform(reader.cfg, old(reader.View()), op);
      reader.View() == st && AllBuilt(reader.heap, out', trees + more)
  {
    ghost var h := reader.heap;
    match op {
      case Give(chunk) =>
        var _ := reader.Feed(chunk);
        out' := out;
        assert trees + [] == trees;
      case Ask =>
        var _, p := reader.GetReply();
        AllBuiltExtends(h, reader.heap, out, trees);
        out' := if p.Some? then out + [p.value] else out;
        assert trees + [] == trees;
    }
  }

  /**
    A whole run on the real reader: the trees it hands out are those of the value-level run, and
    they are all still intact at the end. If it was drained, they are the meaning of the stream.
  */
  method Play(cfg: Config, ops: seq<Resume.Op>) returns (reader: Reader, out: seq<nat>)
    ensures reader.Valid() && reader.View() == Resume.Run(cfg, ops).0
    ensures AllBuilt(reader.heap, out, Resume.Run(cfg, ops).1)
    ensures Resume.Drained(cfg, ops) ==>
      ParseAll(cfg, Resume.Stream(ops)) == Parsed(Resume.Run(cfg, ops).1, Resume.EndOf(reader.View()))
  {
    reader := new Reader(cfg);
    out := [];
    for n := 0 to |ops|
      invariant fresh(reader) && reader.cfg == cfg && reader.Valid()
      invariant reader.View() == Resume.Run(cfg, ops[..n]).0
      invariant AllBuilt(reader.heap, out, Resume.Run(cfg, ops[..n]).1)
    {
      assert ops[..n + 1][..n] == ops[..n];
      out := Act(reader, ops[n], out, Resume.Run(cfg, ops[..n]).1);
    }
    assert ops[..|ops|] == ops;
    if Resume.Drained(cfg, ops) {
      Resume.ChunkingIndependence(cfg, ops);
    }
  }
}
