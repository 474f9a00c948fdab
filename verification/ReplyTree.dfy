/**
  The reply objects hiredis.c builds while read.c is still parsing. Objects are numbered in the
  order of their allocation; an aggregate has one slot for each element, filled in later.
*/
module ReplyTree {
  import opened Options
  import opened Resp

  /** A `redisReply`. */
  datatype Node = Node(kind: Kind, integer: int, str: string, vtype: string, element: seq<Option<nat>>)

  function Leaf(k: Kind): Node {
    Node(k, 0, "", "", [])
  }

  /** The object at `p` and all objects below it form the tree `r`, with every slot filled. */
  ghost predicate Built(h: seq<Node>, p: nat, r: Reply)
    decreases r
  {
    && p < |h|
    && match r
       case Text(k, s) => h[p].kind == k && h[p].str == s
       case Int(v) => h[p].kind == INTEGER && h[p].integer == v
       case Nil => h[p].kind == NIL
       case Bool(b) => h[p].kind == BOOL && h[p].integer == if b then 1 else 0
       case Double(d) => h[p].kind == DOUBLE && h[p].str == d
       case Verb(vt, t) => h[p].kind == VERB && h[p].vtype == vt && h[p].str == t
       case Agg(k, es) =>
         && h[p].kind == k && |h[p].element| == |es|
         && forall i | 0 <= i < |es| :: Holds(h, p, i) && Built(h, h[p].element[i].value, es[i])
  }

  ghost predicate Holds(h: seq<Node>, p: nat, i: int) {
    p < |h| && 0 <= i < |h[p].element| && h[p].element[i].Some?
  }

  /** Objects are only ever added, and only empty slots are ever written. */
  ghost predicate Extends(h: seq<Node>, h': seq<Node>) {
    && |h| <= |h'|
    && forall p | 0 <= p < |h| :: Grown(h[p], h'[p])
  }

  ghost predicate Grown(a: Node, b: Node) {
    && b == a.(element := b.element) && |b.element| == |a.element|
    && forall i | 0 <= i < |a.element| :: a.element[i].Some? ==> b.element[i] == a.element[i]
  }

  lemma ExtendsTransitive(a: seq<Node>, b: seq<Node>, c: seq<Node>)
    requires Extends(a, b) && Extends(b, c)
    ensures Extends(a, c)
  {
    forall p | 0 <= p < |a|
      ensures Grown(a[p], c[p])
    {
      assert Grown(a[p], b[p]) && Grown(b[p], c[p]);
    }
  }

  /** A finished tree is never disturbed. */
  lemma {:induction false} BuiltExtends(h: seq<Node>, h': seq<Node>, p: nat, r: Reply)
    requires Built(h, p, r) && Extends(h, h')
    ensures Built(h', p, r)
    decreases r
  {
    assert Grown(h[p], h'[p]);
    if r.Agg? {
      forall i | 0 <= i < |r.elems|
        ensures Holds(h', p, i) && Built(h', h'[p].element[i].value, r.elems[i])
      {
        assert Holds(h, p, i);
        BuiltExtends(h, h', h[p].element[i].value, r.elems[i]);
      }
    }
  }

  /** A finished object stands for one tree only. */
  lemma {:induction false} BuiltUnique(h: seq<Node>, p: nat, r: Reply, r': Reply)
    requires Built(h, p, r) && Built(h, p, r') && WellFormed(r) && WellFormed(r')
    ensures r == r'
    decreases r
  {
    if r.Agg? && r'.Agg? {
      forall i | 0 <= i < |r.elems|
        ensures r.elems[i] == r'.elems[i]
      {
        assert Holds(h, p, i);
        WellFormedAt(r.elems, i);
        WellFormedAt(r'.elems, i);
        BuiltUnique(h, h[p].element[i].value, r.elems[i], r'.elems[i]);
      }
    }
  }

  lemma {:induction false} WellFormedAt(es: seq<Reply>, i: nat)
    requires AllWellFormed(es) && i < |es|
    ensures WellFormed(es[i])
  {
    if i > 0 {
      WellFormedAt(es[1..], i - 1);
    }
  }

  /** `parent->element[task->idx] = r` */
  function Attach(h: seq<Node>, parent: nat, idx: nat, child: nat): seq<Node>
    requires parent < |h| && idx < |h[parent].element|
  {
    h[parent := h[parent].(element := h[parent].element[idx := Some(child)])]
  }

  lemma AttachExtends(h: seq<Node>, parent: nat, idx: nat, child: nat)
    requires parent < |h| && idx < |h[parent].element| && h[parent].element[idx].None?
    ensures Extends(h, Attach(h, parent, idx, child))
  {
  }

  lemma AppendExtends(h: seq<Node>, n: Node)
    ensures Extends(h, h + [n])
  {
  }
}
