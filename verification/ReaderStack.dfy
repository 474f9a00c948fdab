/**
  The task stack of a reader together with the reply objects under construction, and how it
  stands for the frames of module Resume.
*/
module ReaderStack {
  import opened Options
  import opened Resp
  import opened ReplyTree
  import opened Resume

  /** A `redisReadTask`; `parent` and `obj` are the numbers of the task and object pointed to. */
  datatype Task = Task(kind: Option<Kind>, elements: int, idx: int, obj: Option<nat>, parent: Option<nat>)

  const BLANK := Task(None, 0, 0, None, None)

  /** What slot `idx` of the aggregate in frame `i` refers to: the aggregate above it, or the current item. */
  function Above(task: seq<Task>, frames: seq<Frame>, i: nat, hole: Option<nat>): Option<nat>
    requires i < |frames| < |task|
  {
    if i + 1 < |frames| then task[i + 1].obj else hole
  }

  /** Task `i` is the aggregate of frame `i`, and the task above it is working on its next slot. */
  ghost predicate FrameAt(task: seq<Task>, h: seq<Node>, frames: seq<Frame>, i: nat, hole: Option<nat>)
    requires i < |frames| < |task|
  {
    var f := frames[i];
    && IsAggregate(f.kind) && |f.got| < f.n
    && task[i].kind == Some(f.kind) && task[i].elements == f.n
    && task[i + 1].idx == |f.got| && task[i + 1].parent == Some(i)
    && task[i].obj.Some? && task[i].obj.value < |h|
    && NodeAt(h, task[i].obj.value, f, Above(task, frames, i, hole))
    && (i + 1 < |frames| && task[i + 1].obj.Some? ==> task[i].obj.value < task[i + 1].obj.value)
  }

  /** The object of an open aggregate: finished slots, the slot in progress, empty slots. */
  ghost predicate NodeAt(h: seq<Node>, p: nat, f: Frame, above: Option<nat>) {
    && p < |h| && h[p].kind == f.kind && |h[p].element| == f.n && |f.got| < f.n
    && (forall j | 0 <= j < |f.got| :: Holds(h, p, j) && Built(h, h[p].element[j].value, f.got[j]))
    && h[p].element[|f.got|] == above
    && (forall j | |f.got| < j < f.n :: h[p].element[j] == None)
  }

  /** The stack stands for `frames`; `hole` is the object of the current item, if it has one yet. */
  ghost predicate Linked(task: seq<Task>, h: seq<Node>, frames: seq<Frame>, hole: Option<nat>) {
    && |frames| < |task|
    && task[0].parent == None
    && forall i | 0 <= i < |frames| :: FrameAt(task, h, frames, i, hole)
  }

  lemma NodeAtExtends(h: seq<Node>, h': seq<Node>, p: nat, f: Frame, above: Option<nat>)
    requires NodeAt(h, p, f, above) && Extends(h, h') && h'[p] == h[p]
    ensures NodeAt(h', p, f, above)
  {
    forall j | 0 <= j < |f.got|
      ensures Holds(h', p, j) && Built(h', h'[p].element[j].value, f.got[j])
    {
      assert Holds(h, p, j);
      BuiltExtends(h, h', h[p].element[j].value, f.got[j]);
    }
  }

  lemma {:induction false} Ascending(task: seq<Task>, h: seq<Node>, frames: seq<Frame>, hole: Option<nat>, i: nat)
    requires Linked(task, h, frames, hole) && i + 1 < |frames|
    ensures FrameAt(task, h, frames, i, hole) && FrameAt(task, h, frames, |frames| - 1, hole)
    ensures task[i].obj.value < task[|frames| - 1].obj.value
    decreases |frames| - i
  {
    assert FrameAt(task, h, frames, i, hole);
    assert FrameAt(task, h, frames, i + 1, hole);
    if i + 2 < |frames| {
      Ascending(task, h, frames, hole, i + 1);
    }
  }

  /** The innermost open aggregate. */
  function Innermost(task: seq<Task>, frames: seq<Frame>): (p: Option<nat>)
    requires |frames| < |task|
  {
    if frames == [] then None else task[|frames| - 1].obj
  }

  /** Allocating the object of the current item and hanging it into the innermost aggregate. */
  function Hang(task: seq<Task>, h: seq<Node>, frames: seq<Frame>, n: Node): (h': seq<Node>)
    requires |frames| < |task|
    requires frames != [] ==>
      var p := task[|frames| - 1].obj;
      p.Some? && p.value < |h| && |frames[|frames| - 1].got| < |h[p.value].element|
  {
    if frames == [] then h + [n]
    else Attach(h + [n], task[|frames| - 1].obj.value, |frames[|frames| - 1].got|, |h|)
  }

  lemma HangLinks(task: seq<Task>, h: seq<Node>, frames: seq<Frame>, n: Node)
    requires Linked(task, h, frames, None)
    requires frames != [] ==> FrameAt(task, h, frames, |frames| - 1, None)
    ensures var h' := Hang(task, h, frames, n);
      && |h'| == |h| + 1 && h'[|h|] == n
      && Extends(h, h') && Linked(task, h', frames, Some(|h|))
  {
    var h1, h' := h + [n], Hang(task, h, frames, n);
    AppendExtends(h, n);
    if frames != [] {
      var top := |frames| - 1;
      var p, f := task[top].obj.value, frames[top];
      assert h1[p] == h[p];
      AttachExtends(h1, p, |f.got|, |h|);
      ExtendsTransitive(h, h1, h');
      NodeAtExtends(h, h1, p, f, None);
      TopSlot(h1, p, f, |h|);
      forall i | 0 <= i < |frames|
        ensures FrameAt(task, h', frames, i, Some(|h|))
      {
        assert FrameAt(task, h, frames, i, None);
        if i < top {
          Ascending(task, h, frames, None, i);
          NodeAtExtends(h, h', task[i].obj.value, frames[i], Above(task, frames, i, None));
        }
      }
    }
  }

  lemma TopSlot(h: seq<Node>, p: nat, f: Frame, child: nat)
    requires NodeAt(h, p, f, None)
    ensures NodeAt(Attach(h, p, |f.got|, child), p, f, Some(child))
  {
    var h' := Attach(h, p, |f.got|, child);
    AttachExtends(h, p, |f.got|, child);
    forall j | 0 <= j < |f.got|
      ensures Holds(h', p, j) && Built(h', h'[p].element[j].value, f.got[j])
    {
      assert Holds(h, p, j);
      BuiltExtends(h, h', h[p].element[j].value, f.got[j]);
    }
  }

  /** The last item of an aggregate is finished: so is the aggregate. */
  lemma PopLinks(task: seq<Task>, h: seq<Node>, frames: seq<Frame>, p: nat, r: Reply, rest: string)
    requires frames != [] && Linked(task, h, frames, Some(p)) && Built(h, p, r) && GoodFrames(frames)
    requires var f := frames[|frames| - 1]; |f.got| + 1 == f.n
    ensures var below, f, q := frames[..|frames| - 1], frames[|frames| - 1], task[|frames| - 1].obj;
      && q.Some? && Linked(task, h, below, q) && GoodFrames(below)
      && Built(h, q.value, Agg(f.kind, f.got + [r]))
      && Place(frames, r, rest) == Place(below, Agg(f.kind, f.got + [r]), rest)
  {
    var below, f, q := frames[..|frames| - 1], frames[|frames| - 1], task[|frames| - 1].obj;
    assert FrameAt(task, h, frames, |frames| - 1, Some(p));
    var es := f.got + [r];
    forall j | 0 <= j < |es|
      ensures Holds(h, q.value, j) && Built(h, h[q.value].element[j].value, es[j])
    {
      if j < |f.got| {
        assert Holds(h, q.value, j) && Built(h, h[q.value].element[j].value, f.got[j]);
      }
    }
    forall i | 0 <= i < |below|
      ensures FrameAt(task, h, below, i, q)
    {
      assert FrameAt(task, h, frames, i, Some(p));
    }
  }

  /** `moveToNextTask` at an item that was not the last one: on to the next slot of the same aggregate. */
  lemma NextLinks(task: seq<Task>, h: seq<Node>, frames: seq<Frame>, p: nat, r: Reply, rest: string)
    requires frames != [] && Linked(task, h, frames, Some(p)) && Built(h, p, r) && GoodFrames(frames)
    requires var f := frames[|frames| - 1]; |f.got| + 1 < f.n
    ensures var below, f, cur := frames[..|frames| - 1], frames[|frames| - 1], task[|frames|];
      var frames' := below + [f.(got := f.got + [r])];
      && GoodFrames(frames')
      && Linked(task[|frames| := cur.(kind := None, elements := -1, idx := cur.idx + 1)], h, frames', None)
      && Place(frames, r, rest) == Again(State(None, frames', None, rest))
  {
    var top := |frames| - 1;
    var below, f, cur := frames[..top], frames[top], task[|frames|];
    var task' := task[|frames| := cur.(kind := None, elements := -1, idx := cur.idx + 1)];
    var f' := f.(got := f.got + [r]);
    var frames' := below + [f'];
    assert FrameAt(task, h, frames, top, Some(p));
    var q := task[top].obj.value;
    forall j | 0 <= j < |f'.got|
      ensures Holds(h, q, j) && Built(h, h[q].element[j].value, f'.got[j])
    {
      if j < |f.got| {
        assert Holds(h, q, j);
      }
    }
    assert NodeAt(h, q, f', None);
    forall i | 0 <= i < |frames'|
      ensures FrameAt(task', h, frames', i, None)
    {
      assert FrameAt(task, h, frames, i, Some(p));
    }
  }

  /** `processAggregateItem` at an aggregate with elements: a new frame. */
  lemma OpenLinks(task: seq<Task>, h: seq<Node>, frames: seq<Frame>, p: nat, k: Kind, n: nat)
    requires Linked(task, h, frames, Some(p)) && |frames| + 1 < |task|
    requires IsAggregate(k) && n > 0 && task[|frames|].kind == Some(k)
    requires p < |h| && h[p] == Leaf(k).(element := seq(n, i => None))
    requires Innermost(task, frames).Some? ==> Innermost(task, frames).value < p
    ensures var cur := |frames|;
      Linked(task[cur := task[cur].(elements := n, obj := Some(p))][cur + 1 := Task(None, -1, 0, None, Some(cur))],
             h, frames + [Frame(k, n, [])], None)
  {
    var cur := |frames|;
    var task' := task[cur := task[cur].(elements := n, obj := Some(p))][cur + 1 := Task(None, -1, 0, None, Some(cur))];
    var frames' := frames + [Frame(k, n, [])];
    assert NodeAt(h, p, Frame(k, n, []), None);
    forall i | 0 <= i < |frames'|
      ensures FrameAt(task', h, frames', i, None)
    {
      if i < cur {
        assert FrameAt(task, h, frames, i, Some(p));
      }
    }
  }

  /** Tasks above the current item play no role. */
  lemma LinkedPrefix(task: seq<Task>, task': seq<Task>, h: seq<Node>, frames: seq<Frame>, hole: Option<nat>)
    requires Linked(task, h, frames, hole) && |frames| < |task'|
    requires forall i | 0 <= i < |frames| :: task'[i] == task[i]
    requires task'[|frames|].idx == task[|frames|].idx && task'[|frames|].parent == task[|frames|].parent
    ensures Linked(task', h, frames, hole)
  {
    forall i | 0 <= i < |frames|
      ensures FrameAt(task', h, frames, i, hole)
    {
      assert FrameAt(task, h, frames, i, hole);
    }
  }
}
