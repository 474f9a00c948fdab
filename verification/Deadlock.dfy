/**
  The wait-for graph of deadlock_success.c and its depth-first search for cycles, over the global
  arrays `visited` and `path`.
*/
module Deadlock {
  import opened Options

  const MAX: nat := 100

  datatype Kind = PROCESS | RESOURCE

  datatype Source = Source(id: nat, kind: Kind)

  // ------------------------------------------------------------------ graphs

  /** For each vertex the vertices its edges lead to, one for each edge node. */
  type Graph = seq<seq<nat>>

  ghost predicate WellFormed(g: Graph) {
    forall u, j :: 0 <= u < |g| && 0 <= j < |g[u]| ==> g[u][j] < |g|
  }

  /** Where the walk `w` from `s` ends; a walk is given by the number of the edge taken at each vertex. */
  ghost function End(g: Graph, s: nat, w: seq<nat>): Option<nat> {
    if |w| == 0 then (if s < |g| then Some(s) else None)
    else
      match End(g, s, w[..|w| - 1])
      case None => None
      case Some(u) => if u < |g| && w[|w| - 1] < |g[u]| then Some(g[u][w[|w| - 1]]) else None
  }

  /** A walk from `s` over its edge `f` back to `s`. */
  ghost predicate Returns(g: Graph, s: nat, f: nat, w: seq<nat>) {
    |w| > 0 && w[0] == f && End(g, s, w) == Some(s)
  }

  /** Two different walks from `s` over its edge `f` to the same vertex. */
  ghost predicate Meet(g: Graph, s: nat, f: nat, w: seq<nat>, w': seq<nat>) {
    |w| > 0 && |w'| > 0 && w[0] == f && w'[0] == f && w != w' && End(g, s, w).Some? && End(g, s, w') == End(g, s, w)
  }

  ghost predicate HasCycle(g: Graph) {
    exists s, f, w :: Returns(g, s, f, w)
  }

  /** Two ways round: different walks that have the first edge and the last vertex in common. */
  ghost predicate HasDetour(g: Graph) {
    exists s, f, w, w' :: Meet(g, s, f, w, w')
  }

  lemma EndOneMore(g: Graph, s: nat, w: seq<nat>, j: nat, u: nat)
    requires End(g, s, w) == Some(u) && u < |g| && j < |g[u]|
    ensures End(g, s, w + [j]) == Some(g[u][j])
  {
    assert (w + [j])[..|w|] == w;
  }

  lemma {:induction false} EndInGraph(g: Graph, s: nat, w: seq<nat>)
    requires WellFormed(g) && End(g, s, w).Some?
    ensures End(g, s, w).value < |g|
  {
    if |w| > 0 { EndInGraph(g, s, w[..|w| - 1]); }
  }

  // ---------------------------------------------------------- what a search knows

  /**
    What the search from `s` over its edge `f` has found: the vertices it has `seen`, for each of
    them but `s` a walk that leads there, and the edges it has `taken` on.
  */
  datatype Search = Search(s: nat, f: nat, seen: set<nat>, via: map<nat, seq<nat>>, taken: set<(nat, nat)>)

  ghost predicate Known(g: Graph, h: Search) {
    && WellFormed(g) && h.s < |g| && h.f < |g[h.s]|
    && h.s in h.seen && h.s !in h.via && h.via.Keys + {h.s} == h.seen
    && (forall v :: v in h.seen ==> v < |g|)
    && (h.via != map[] ==> g[h.s][h.f] in h.via)
    && (forall v {:trigger Reached(g, h, v)} :: v in h.via ==> Reached(g, h, v))
    && (forall e :: e in h.taken ==> e.0 in h.via && e.1 < |g[e.0]| && g[e.0][e.1] in h.seen)
  }

  /** The walk to `v` starts with edge `f`, and its last edge is one of those taken. */
  ghost predicate Reached(g: Graph, h: Search, v: nat)
    requires v in h.via
  {
    var w := h.via[v];
    && |w| > 0 && w[0] == h.f && End(g, h.s, w) == Some(v)
    && (|w| > 1 ==>
          var u := End(g, h.s, w[..|w| - 1]);
          u.Some? && (u.value, w[|w| - 1]) in h.taken)
  }

  ghost function To(g: Graph, e: (nat, nat)): nat {
    if e.0 < |g| && e.1 < |g[e.0]| then g[e.0][e.1] else 0
  }

  /** No edge taken leads to `s`, to the first vertex `t`, or where another one leads. */
  ghost predicate OneWay(g: Graph, s: nat, t: nat, taken: set<(nat, nat)>) {
    && (forall e :: e in taken ==> To(g, e) != s && To(g, e) != t)
    && (forall d, e :: d in taken && e in taken && To(g, d) == To(g, e) ==> d == e)
  }

  ghost predicate Clean(g: Graph, h: Search)
    requires Known(g, h)
  {
    OneWay(g, h.s, g[h.s][h.f], h.taken)
  }

  lemma OneMoreWay(g: Graph, s: nat, t: nat, taken: set<(nat, nat)>, seen: set<nat>, e: (nat, nat))
    requires OneWay(g, s, t, taken) && s in seen && t in seen && To(g, e) !in seen
    requires forall d :: d in taken ==> To(g, d) in seen
    ensures OneWay(g, s, t, taken + {e})
  {
  }

  /** All edges of the seen vertices other than `s` have been taken. */
  ghost predicate Closed(g: Graph, h: Search)
    requires Known(g, h)
  {
    && g[h.s][h.f] in h.via
    && forall v, j :: v in h.via && 0 <= j < |g[v]| ==> (v, j) in h.taken
  }

  /** A vertex that is met again over an edge not taken before shows a cycle or a detour. */
  lemma MetAgain(g: Graph, h: Search, u: nat, j: nat)
    requires Known(g, h) && u in h.via && j < |g[u]| && (u, j) !in h.taken && g[u][j] in h.seen
    ensures HasCycle(g) || HasDetour(g)
  {
    var v, w := g[u][j], h.via[u] + [j];
    assert Reached(g, h, u);
    EndOneMore(g, h.s, h.via[u], j, u);
    if v == h.s {
      assert Returns(g, h.s, h.f, w);
    } else {
      assert Reached(g, h, v);
      assert w[..|w| - 1] == h.via[u];
      assert Meet(g, h.s, h.f, h.via[v], w);
    }
  }

  /** In a clean and closed search every walk stays where the search has been. */
  lemma {:induction false} StaysInside(g: Graph, h: Search, w: seq<nat>)
    requires Known(g, h) && Clean(g, h) && Closed(g, h) && |w| > 0 && w[0] == h.f && End(g, h.s, w).Some?
    requires g[h.s][h.f] != h.s
    ensures End(g, h.s, w).value in h.via
    ensures |w| > 1 ==>
      var u := End(g, h.s, w[..|w| - 1]);
      u.Some? && u.value in h.via && (u.value, w[|w| - 1]) in h.taken && End(g, h.s, w) == Some(g[u.value][w[|w| - 1]])
  {
    if |w| > 1 {
      StaysInside(g, h, w[..|w| - 1]);
      var e := (End(g, h.s, w[..|w| - 1]).value, w[|w| - 1]);
      assert e in h.taken;
    } else {
      assert w[..0] == [];
    }
  }

  /** There is only one walk to each vertex then. */
  lemma {:induction false} OneWalk(g: Graph, h: Search, w: seq<nat>, w': seq<nat>)
    requires Known(g, h) && Clean(g, h) && Closed(g, h) && g[h.s][h.f] != h.s
    requires |w| > 0 && w[0] == h.f && |w'| > 0 && w'[0] == h.f
    requires End(g, h.s, w).Some? && End(g, h.s, w') == End(g, h.s, w)
    ensures w == w'
  {
    OneStep(g, h, w);
    OneStep(g, h, w');
    if |w| > 1 && |w'| > 1 {
      SameLastEdge(g, h, w, w');
      OneWalk(g, h, w[..|w| - 1], w'[..|w'| - 1]);
      assert w == w[..|w| - 1] + [w[|w| - 1]] && w' == w'[..|w'| - 1] + [w'[|w'| - 1]];
    }
  }

  lemma SameLastEdge(g: Graph, h: Search, w: seq<nat>, w': seq<nat>)
    requires Known(g, h) && Clean(g, h) && Closed(g, h) && g[h.s][h.f] != h.s
    requires |w| > 1 && w[0] == h.f && |w'| > 1 && w'[0] == h.f
    requires End(g, h.s, w).Some? && End(g, h.s, w') == End(g, h.s, w)
    ensures w[|w| - 1] == w'[|w'| - 1] && End(g, h.s, w[..|w| - 1]).Some?
    ensures End(g, h.s, w[..|w| - 1]) == End(g, h.s, w'[..|w'| - 1])
  {
    StaysInside(g, h, w);
    StaysInside(g, h, w');
    var e := (End(g, h.s, w[..|w| - 1]).value, w[|w| - 1]);
    var e' := (End(g, h.s, w'[..|w'| - 1]).value, w'[|w'| - 1]);
    assert To(g, e) == To(g, e');
  }

  /** Only the walk of one step leads to the first vertex. */
  lemma OneStep(g: Graph, h: Search, w: seq<nat>)
    requires Known(g, h) && Clean(g, h) && Closed(g, h) && g[h.s][h.f] != h.s
    requires |w| > 0 && w[0] == h.f && End(g, h.s, w).Some?
    ensures End(g, h.s, w) == Some(g[h.s][h.f]) <==> w == [h.f]
  {
    StaysInside(g, h, w);
    if |w| == 1 {
      assert w[..0] == [];
    } else {
      var e := (End(g, h.s, w[..|w| - 1]).value, w[|w| - 1]);
      assert e in h.taken;
    }
  }

  /** A clean and closed search over edge `f` of `s` has found that there is no cycle and no detour that way. */
  lemma NothingFound(g: Graph, h: Search)
    requires Known(g, h) && Clean(g, h) && Closed(g, h) && g[h.s][h.f] != h.s
    ensures forall w :: !Returns(g, h.s, h.f, w)
    ensures forall w, w' :: !Meet(g, h.s, h.f, w, w')
  {
    forall w | Returns(g, h.s, h.f, w) ensures false {
      StaysInside(g, h, w);
    }
    forall w, w' | Meet(g, h.s, h.f, w, w') ensures false {
      OneWalk(g, h, w, w');
    }
  }

  /** Edge `j` of `u` is the next one to take: the first edge of the search, or one of a seen vertex. */
  ghost predicate NextEdge(g: Graph, h: Search, u: nat, j: nat)
    requires Known(g, h)
  {
    && u < |g| && j < |g[u]|
    && if u == h.s then j == h.f && h.via == map[] && h.taken == {} else u in h.via && (u, j) !in h.taken
  }

  /** What is known after taking that edge. */
  ghost function Take(g: Graph, h: Search, u: nat, j: nat): Search
    requires Known(g, h) && NextEdge(g, h, u, j)
  {
    var v := g[u][j];
    var h' := if u == h.s then h else h.(taken := h.taken + {(u, j)});
    if v in h.seen then h'
    else h'.(seen := h.seen + {v}, via := h.via[v := if u == h.s then [j] else h.via[u] + [j]])
  }

  lemma NewlyReached(g: Graph, h: Search, u: nat, j: nat)
    requires Known(g, h) && NextEdge(g, h, u, j) && g[u][j] !in h.seen
    ensures Reached(g, Take(g, h, u, j), g[u][j])
  {
    var v, h' := g[u][j], Take(g, h, u, j);
    if u == h.s {
      EndOneMore(g, h.s, [], j, u);
      assert [] + [j] == [j];
    } else {
      assert Reached(g, h, u);
      EndOneMore(g, h.s, h.via[u], j, u);
      assert h'.via[v][..|h'.via[v]| - 1] == h.via[u];
      assert u in h'.via && (u, j) in h'.taken;
    }
  }

  lemma TakeNew(g: Graph, h: Search, u: nat, j: nat)
    requires Known(g, h) && NextEdge(g, h, u, j) && g[u][j] !in h.seen
    ensures Known(g, Take(g, h, u, j))
  {
    var v, h' := g[u][j], Take(g, h, u, j);
    NewlyReached(g, h, u, j);
    forall x | x in h'.via ensures Reached(g, h', x) {
      if x != v {
        assert Reached(g, h, x);
        StillReached(g, h, h', x);
      }
    }
    assert h'.via.Keys == h.via.Keys + {v};
  }

  lemma TakeClean(g: Graph, h: Search, u: nat, j: nat)
    requires Known(g, h) && NextEdge(g, h, u, j) && g[u][j] !in h.seen && Clean(g, h)
    ensures Known(g, Take(g, h, u, j)) && Clean(g, Take(g, h, u, j))
  {
    TakeNew(g, h, u, j);
    if u != h.s {
      OneMoreWay(g, h.s, g[h.s][h.f], h.taken, h.seen, (u, j));
    }
  }

  lemma StillReached(g: Graph, h: Search, h': Search, x: nat)
    requires x in h.via && Reached(g, h, x) && h'.s == h.s && h'.f == h.f && h.taken <= h'.taken
    requires x in h'.via && h'.via[x] == h.via[x]
    ensures Reached(g, h', x)
  {
  }

  lemma TakeSeen(g: Graph, h: Search, u: nat, j: nat)
    requires Known(g, h) && NextEdge(g, h, u, j) && g[u][j] in h.seen
    ensures Known(g, Take(g, h, u, j)) && (HasCycle(g) || HasDetour(g))
  {
    var h' := Take(g, h, u, j);
    forall x | x in h'.via ensures Reached(g, h', x) {
      assert Reached(g, h, x);
      StillReached(g, h, h', x);
    }
    if u == h.s {
      EndOneMore(g, h.s, [], j, u);
      assert [] + [j] == [j];
      assert Returns(g, h.s, h.f, [j]);
    } else {
      MetAgain(g, h, u, j);
    }
  }

  /**
    From `h` to `h'` the search took edge `j` of `u` and everything that can be reached over it: all
    edges of newly seen vertices, and no other edges of vertices seen before.
  */
  ghost predicate Explored(g: Graph, h: Search, h': Search, u: nat, j: nat)
    requires Known(g, h) && Known(g, h')
  {
    && h'.s == h.s && h'.f == h.f && h.seen <= h'.seen
    && (forall v :: v in h.via ==> v in h'.via && h'.via[v] == h.via[v])
    && (forall v, i :: v in h'.seen - h.seen && 0 <= i < |g[v]| ==> (v, i) in h'.taken)
    && (forall v, i :: v in h.seen ==> ((v, i) in h'.taken <==> (v, i) in h.taken || (v == u != h.s && i == j)))
  }

  /** The search has taken edge `j` of `u` to the new vertex `idx`, and explored the first `n` edges of `idx`. */
  ghost predicate PartlyExplored(g: Graph, h: Search, h': Search, u: nat, j: nat, idx: nat, n: nat)
    requires Known(g, h) && Known(g, h')
  {
    && h'.s == h.s && h'.f == h.f && h.seen + {idx} <= h'.seen
    && (forall v :: v in h.via ==> v in h'.via && h'.via[v] == h.via[v])
    && (forall v, i :: v in h'.seen - h.seen && v != idx && 0 <= i < |g[v]| ==> (v, i) in h'.taken)
    && (forall i :: (idx, i) in h'.taken <==> 0 <= i < n)
    && (forall v, i :: v in h.seen ==> ((v, i) in h'.taken <==> (v, i) in h.taken || (v == u != h.s && i == j)))
  }

  lemma BeginExploring(g: Graph, h: Search, u: nat, j: nat)
    requires Known(g, h) && NextEdge(g, h, u, j) && g[u][j] !in h.seen && Known(g, Take(g, h, u, j))
    ensures PartlyExplored(g, h, Take(g, h, u, j), u, j, g[u][j], 0)
  {
    var v, h' := g[u][j], Take(g, h, u, j);
    assert forall e :: e in h'.taken ==> e.0 in h.via;
    assert forall i :: (v, i) !in h'.taken;
    assert h'.seen - h.seen == {v};
  }

  /** Taking an edge to a new vertex. */
  lemma Discover(g: Graph, h: Search, u: nat, j: nat, clean: bool) returns (h': Search)
    requires Known(g, h) && NextEdge(g, h, u, j) && g[u][j] !in h.seen && (clean ==> Clean(g, h))
    ensures Known(g, h') && (clean ==> Clean(g, h')) && h'.seen == h.seen + {g[u][j]}
    ensures PartlyExplored(g, h, h', u, j, g[u][j], 0)
  {
    h' := Take(g, h, u, j);
    TakeNew(g, h, u, j);
    if clean { TakeClean(g, h, u, j); }
    BeginExploring(g, h, u, j);
  }

  /** Taking an edge to a vertex seen before. */
  lemma Rediscover(g: Graph, h: Search, u: nat, j: nat) returns (h': Search)
    requires Known(g, h) && NextEdge(g, h, u, j) && g[u][j] in h.seen
    ensures Known(g, h') && h'.seen == h.seen && Explored(g, h, h', u, j) && (HasCycle(g) || HasDetour(g))
  {
    h' := Take(g, h, u, j);
    TakeSeen(g, h, u, j);
  }

  lemma ExploreNext(g: Graph, h: Search, h': Search, h'': Search, u: nat, j: nat, idx: nat, n: nat)
    requires Known(g, h) && Known(g, h') && Known(g, h'') && idx !in h.seen && idx != h.s
    requires PartlyExplored(g, h, h', u, j, idx, n) && Explored(g, h', h'', idx, n)
    ensures PartlyExplored(g, h, h'', u, j, idx, n + 1)
  {
  }

  lemma SeenSize(g: Graph, h: Search)
    requires Known(g, h)
    ensures |h.seen| <= |g|
  {
    SubsetSize(h.seen, Below(|g|));
  }

  lemma SeenGrows(g: Graph, h: Search, h': Search, idx: nat)
    requires Known(g, h') && idx !in h.seen && h.seen + {idx} <= h'.seen
    ensures |h.seen| < |h'.seen| <= |g|
  {
    SubsetSize(h.seen + {idx}, h'.seen);
    SeenSize(g, h');
  }

  lemma FromStart(g: Graph, h: Search, h': Search)
    requires Known(g, h) && Known(g, h') && h.seen == {h.s} && h.via == map[]
    requires Explored(g, h, h', h.s, h.f) && g[h.s][h.f] in h'.seen && g[h.s][h.f] != h.s
    ensures Closed(g, h')
  {
  }

  /** Nothing wrong over edge `f` of `s`. */
  ghost predicate Clear(g: Graph, s: nat, f: nat) {
    (forall w :: !Returns(g, s, f, w)) && forall w, w' :: !Meet(g, s, f, w, w')
  }

  lemma {:induction false} FirstEdge(g: Graph, s: nat, w: seq<nat>)
    requires |w| > 0 && End(g, s, w).Some?
    ensures s < |g| && w[0] < |g[s]|
  {
    if |w| > 1 {
      FirstEdge(g, s, w[..|w| - 1]);
    } else {
      assert w[..0] == [];
    }
  }

  lemma AllClear(g: Graph)
    requires forall s, f :: 0 <= s < |g| && 0 <= f < |g[s]| ==> Clear(g, s, f)
    ensures !HasCycle(g) && !HasDetour(g)
  {
    forall s, f, w ensures !Returns(g, s, f, w) {
      if |w| > 0 && w[0] == f && End(g, s, w).Some? {
        FirstEdge(g, s, w);
        assert Clear(g, s, f);
      }
    }
    forall s, f, w, w' ensures !Meet(g, s, f, w, w') {
      if |w| > 0 && w[0] == f && End(g, s, w).Some? {
        FirstEdge(g, s, w);
        assert Clear(g, s, f);
      }
    }
  }

  // ------------------------------------------------- graphs with single edges

  ghost predicate SingleEdges(g: Graph) {
    forall u :: 0 <= u < |g| ==> |g[u]| <= 1
  }

  lemma {:induction false} EndSplit(g: Graph, s: nat, a: seq<nat>, b: seq<nat>)
    requires WellFormed(g) && End(g, s, a + b).Some?
    ensures End(g, s, a).Some? && End(g, End(g, s, a).value, b) == End(g, s, a + b)
  {
    if |b| == 0 {
      assert a + b == a;
      EndInGraph(g, s, a);
    } else {
      var b' := b[..|b| - 1];
      assert (a + b)[..|a + b| - 1] == a + b';
      EndSplit(g, s, a, b');
    }
  }

  lemma {:induction false} OnlyZeros(g: Graph, s: nat, w: seq<nat>)
    requires WellFormed(g) && SingleEdges(g) && End(g, s, w).Some?
    ensures forall i :: 0 <= i < |w| ==> w[i] == 0
  {
    if |w| > 0 {
      OnlyZeros(g, s, w[..|w| - 1]);
      EndInGraph(g, s, w[..|w| - 1]);
    }
  }

  lemma LongerWalkCloses(g: Graph, s: nat, f: nat, w: seq<nat>, w': seq<nat>)
    requires WellFormed(g) && SingleEdges(g) && Meet(g, s, f, w, w') && |w| <= |w'|
    ensures HasCycle(g)
  {
    OnlyZeros(g, s, w);
    OnlyZeros(g, s, w');
    var rest := w'[|w|..];
    assert w' == w + rest;
    EndSplit(g, s, w, rest);
    assert |w| == |w'| ==> w == w';
    assert Returns(g, End(g, s, w).value, rest[0], rest);
  }

  /** If every vertex has at most one edge, the search answers just whether there is a cycle. */
  lemma SingleEdgesNoFalseAlarm(g: Graph)
    requires WellFormed(g) && SingleEdges(g)
    ensures HasCycle(g) || HasDetour(g) <==> HasCycle(g)
  {
    if HasDetour(g) {
      var s, f, w, w' :| Meet(g, s, f, w, w');
      if |w| <= |w'| { LongerWalkCloses(g, s, f, w, w'); } else { LongerWalkCloses(g, s, f, w', w); }
    }
  }

  /** Otherwise there are false alarms: two ways from 1 to 3 behind a common first edge, and no cycle. */
  lemma FalseAlarm()
    ensures var g: Graph := [[1], [2, 3], [3], []];
      WellFormed(g) && !HasCycle(g) && HasDetour(g)
  {
    var g: Graph := [[1], [2, 3], [3], []];
    assert End(g, 0, [0]) == Some(1) by { assert [0][..0] == []; }
    assert End(g, 0, [0, 0]) == Some(2) by { assert [0, 0][..1] == [0]; }
    assert End(g, 0, [0, 0, 0]) == Some(3) by { assert [0, 0, 0][..2] == [0, 0]; }
    assert End(g, 0, [0, 1]) == Some(3) by { assert [0, 1][..1] == [0]; }
    assert Meet(g, 0, 0, [0, 1], [0, 0, 0]);
    forall s, f, w | Returns(g, s, f, w) ensures false { Climbs(g, s, w); }
  }

  lemma {:induction false} Climbs(g: Graph, s: nat, w: seq<nat>)
    requires forall u, j :: 0 <= u < |g| && 0 <= j < |g[u]| ==> u < g[u][j] < |g|
    requires End(g, s, w).Some?
    ensures End(g, s, w).value >= s + |w|
  {
    if |w| > 0 { Climbs(g, s, w[..|w| - 1]); }
  }

  // -------------------------------------------------------------- the task graph

  /** Every edge leads to a vertex in the list. */
  ghost predicate Targets(keys: seq<Source>, adj: seq<seq<Source>>) {
    |keys| == |adj| && forall u, j :: 0 <= u < |adj| && 0 <= j < |adj[u]| ==> adj[u][j] in keys
  }

  ghost function IndexIn(keys: seq<Source>, x: Source): (i: nat)
    requires x in keys
    ensures i < |keys| && keys[i] == x
  {
    var i :| 0 <= i < |keys| && keys[i] == x;
    i
  }

  ghost function GraphOf(keys: seq<Source>, adj: seq<seq<Source>>): (g: Graph)
    requires Targets(keys, adj)
    ensures |g| == |keys| && WellFormed(g)
    ensures forall u, j :: 0 <= u < |g| ==>
      |g[u]| == |adj[u]| && (0 <= j < |g[u]| ==> g[u][j] == IndexIn(keys, adj[u][j]))
  {
    seq(|adj|, u requires 0 <= u < |adj| =>
      seq(|adj[u]|, j requires 0 <= j < |adj[u]| => IndexIn(keys, adj[u][j])))
  }

  /** `remove_edge` compares only the ids. */
  ghost function WithoutFirst(edges: seq<Source>, id: nat): seq<Source> {
    if |edges| == 0 then [] else if edges[0].id == id then edges[1..] else [edges[0]] + WithoutFirst(edges[1..], id)
  }

  ghost predicate Distinct<T>(s: seq<T>) {
    forall i, j :: 0 <= i < j < |s| ==> s[i] != s[j]
  }

  /** Each vertex of `p` but the first has an edge from the one before it. */
  ghost predicate IsWalk(g: Graph, p: seq<int>) {
    && (forall i :: 0 <= i < |p| ==> 0 <= p[i] < |g|)
    && (forall i :: 0 < i < |p| ==> p[i] in g[p[i - 1]])
  }

  ghost function Below(n: nat): (b: set<int>)
    ensures |b| == n && forall i :: i in b <==> 0 <= i < n
  {
    if n == 0 then {} else Below(n - 1) + {n - 1}
  }

  lemma FewDistinct(p: seq<int>, n: nat)
    requires Distinct(p) && forall i :: 0 <= i < |p| ==> 0 <= p[i] < n
    ensures |p| <= n
  {
    SizeOfDistinct(p);
    SubsetSize((set x | x in p), Below(n));
  }

  lemma {:induction false} SizeOfDistinct(p: seq<int>)
    requires Distinct(p)
    ensures |(set x | x in p)| == |p|
  {
    if |p| > 0 {
      SizeOfDistinct(p[1..]);
      assert (set x | x in p) == (set x | x in p[1..]) + {p[0]};
    }
  }

  lemma {:induction false} SubsetSize<T>(a: set<T>, b: set<T>)
    requires a <= b
    ensures |a| <= |b|
  {
    if a != {} {
      var x :| x in a;
      SubsetSize(a - {x}, b - {x});
    }
  }

  /** A printed path, and the vertices that had been visited when it was printed. */
  datatype Report = Report(walk: seq<int>, seen: set<nat>)

  /** Every printed path is justified, and the flag is up exactly if one has been printed. */
  ghost predicate Shown(g: Graph, rs: seq<Report>, deadlock: bool) {
    (deadlock <==> rs != []) && forall i :: 0 <= i < |rs| ==> Justified(g, rs[i])
  }

  /** The printed path is a walk that ends at a vertex visited before. */
  ghost predicate Justified(g: Graph, r: Report) {
    |r.walk| > 1 && IsWalk(g, r.walk) && r.walk[|r.walk| - 1] in r.seen
  }

  /** The path from the start of the search to where it stands. */
  ghost predicate OnPath(g: Graph, p: seq<int>, seen: set<nat>) {
    IsWalk(g, p) && Distinct(p) && forall i :: 0 <= i < |p| ==> p[i] in seen
  }

  /** The marks in `visited` are those of the search. */
  ghost predicate Marked(visited: seq<int>, n: nat, seen: set<nat>) {
    n <= |visited| && forall i :: 0 <= i < n ==> (visited[i] == 1 <==> i in seen)
  }

  /** `deadlock` is set only if there is a cycle or a detour, and unset only if none has been found so far. */
  ghost predicate Verdict(g: Graph, h: Search, deadlock: bool)
    requires Known(g, h)
  {
    if deadlock then HasCycle(g) || HasDetour(g) else Clean(g, h)
  }

  lemma AllExplored(g: Graph, h: Search, h': Search, u: nat, j: nat, idx: nat)
    requires Known(g, h) && Known(g, h') && idx < |g| && idx !in h.seen
    requires PartlyExplored(g, h, h', u, j, idx, |g[idx]|)
    ensures Explored(g, h, h', u, j)
  {
  }

  lemma NextOfVertex(g: Graph, h: Search, h': Search, u: nat, j: nat, idx: nat, i: nat)
    requires Known(g, h) && Known(g, h') && idx < |g| && idx !in h.seen && PartlyExplored(g, h, h', u, j, idx, i)
    requires i < |g[idx]|
    ensures NextEdge(g, h', idx, i)
  {
    assert idx in h'.seen && idx != h'.s;
  }

  lemma StillOnPath(g: Graph, p: seq<int>, seen: set<nat>, seen': set<nat>)
    requires OnPath(g, p, seen) && seen <= seen'
    ensures OnPath(g, p, seen')
  {
  }

  lemma BackOne(a: seq<int>, k: int, p: seq<int>, x: int)
    requires 0 < k <= |a| && a[..k] == p + [x]
    ensures a[..k - 1] == p
  {
    assert a[..k - 1] == a[..k][..k - 1];
  }

  lemma Front<T>(a: seq<T>, p: seq<T>, x: T)
    requires a == p + [x]
    ensures a[..|p|] == p
  {
  }

  /** The list of vertices after `add_vertex`. */
  ghost function WithVertex(keys: seq<Source>, x: Source): seq<Source> {
    if x in keys then keys else keys + [x]
  }

  class Detector {
    var keys: seq<Source>
    var adj: seq<seq<Source>>
    const visited: array<int>
    const path: array<int>
    var k: int
    var deadlock: bool
    ghost var printed: seq<Report>

    ghost predicate Valid()
      reads this`keys, this`adj
    {
      && visited.Length == MAX && path.Length == MAX + 1 && visited != path
      && |keys| <= MAX && Distinct(keys) && Targets(keys, adj)
    }

    ghost function Waits(): (g: Graph)
      requires Valid()
      reads this`keys, this`adj
      ensures |g| == |keys| == |adj| && WellFormed(g)
    {
      GraphOf(keys, adj)
    }

    constructor ()
      ensures Valid() && keys == [] && fresh(visited) && fresh(path)
    {
      keys, adj, k, deadlock, printed := [], [], 0, false, [];
      visited, path := new int[MAX], new int[MAX + 1];
    }

    lemma TargetOf(u: nat, i: nat)
      requires Valid() && u < |adj| && i < |adj[u]|
      ensures adj[u][i] in keys && |Waits()[u]| == |adj[u]| && Waits()[u][i] == IndexIn(keys, adj[u][i])
    {
    }

    method SearchVertex(x: Source) returns (r: int)
      requires Valid()
      ensures if x in keys then r == IndexIn(keys, x) else r == -1
    {
      var i := 0;
      while i < |keys|
        invariant i <= |keys| && forall j :: 0 <= j < i ==> keys[j] != x
      {
        if keys[i] == x { return i; }
        i := i + 1;
      }
      return -1;
    }

    method AddVertex(x: Source)
      requires Valid() && (x in keys || |keys| < MAX)
      modifies `keys, `adj
      ensures Valid() && x in keys
      ensures if x in old(keys) then keys == old(keys) && adj == old(adj)
        else keys == old(keys) + [x] && adj == old(adj) + [[]]
    {
      var i := SearchVertex(x);
      if i == -1 {
        keys, adj := keys + [x], adj + [[]];
      }
    }

    /** The new edge comes last among the edges of `from`; missing vertices are added first. */
    method AddEdge(from: Source, to: Source)
      requires Valid() && (from in keys || |keys| < MAX)
      requires to in keys || to == from || |keys| + (if from in keys then 0 else 1) < MAX
      modifies `keys, `adj
      ensures Valid() && keys == WithVertex(WithVertex(old(keys), from), to) && |old(adj)| <= |adj|
      ensures forall u :: 0 <= u < |adj| ==>
        adj[u] == (if u < |old(adj)| then old(adj)[u] else []) + (if keys[u] == from then [to] else [])
    {
      AddVertex(from);
      AddVertex(to);
      var v := SearchVertex(from);
      adj := adj[v := adj[v] + [to]];
    }

    /** Removes the first edge of `from` whose id is that of `to`, if both vertices are there. */
    method RemoveEdge(from: Source, to: Source)
      requires Valid()
      modifies `adj
      ensures Valid() && |adj| == |old(adj)|
      ensures forall u :: 0 <= u < |adj| ==>
        adj[u] == if keys[u] == from && to in keys then WithoutFirst(old(adj)[u], to.id) else old(adj)[u]
    {
      var idxi := SearchVertex(from);
      var idxj := SearchVertex(to);
      if idxi != -1 && idxj != -1 {
        var edges, j := adj[idxi], 0;
        while j < |edges|
          invariant j <= |edges| && WithoutFirst(edges, to.id) == edges[..j] + WithoutFirst(edges[j..], to.id)
        {
          if edges[j].id == to.id {
            adj := adj[idxi := edges[..j] + edges[j + 1..]];
            return;
          }
          j := j + 1;
        }
      }
    }

    method PrintDeadlock(ghost g: Graph, ghost seen: set<nat>)
      requires Valid() && 1 < k <= MAX + 1 && Justified(g, Report(path[..k], seen))
      modifies `printed
      ensures printed == old(printed) + [Report(path[..k], seen)]
    {
      printed := printed + [Report(path[..k], seen)];
    }

    method Advance(idx: nat)
      requires 0 <= k < path.Length
      modifies `k, path
      ensures k == old(k) + 1 && path[..k] == old(path[..k]) + [idx]
    {
      path[k] := idx;
      k := k + 1;
    }

    /** The search comes to a vertex that is marked already. */
    method MeetAgain(idx: nat, ghost g: Graph, ghost seen: set<nat>)
      requires Valid() && |g| == |keys| && 0 < k <= MAX && OnPath(g, path[..k], seen)
      requires path[k - 1] < |g| && idx in g[path[k - 1]] && idx in seen && idx < |g| && Shown(g, printed, deadlock)
      modifies `k, `deadlock, `printed, path
      ensures k == old(k) + 1 && path[..k] == old(path[..k]) + [idx] && deadlock && Shown(g, printed, deadlock)
    {
      Advance(idx);
      PrintDeadlock(g, seen);
      deadlock := true;
    }

    /** The search comes to a new vertex, which makes the path no longer than there are vertices. */
    method Mark(idx: nat, ghost g: Graph, ghost seen: set<nat>)
      requires Valid() && |g| == |keys| && 0 < k <= MAX && OnPath(g, path[..k], seen)
      requires path[k - 1] < |g| && idx in g[path[k - 1]] && idx !in seen && idx < |g| && Marked(visited[..], |g|, seen)
      modifies `k, path, visited
      ensures Marked(visited[..], |g|, seen + {idx})
      ensures 1 < k <= MAX && OnPath(g, path[..k], seen + {idx}) && path[k - 1] == idx
      ensures k == old(k) + 1 && path[..k] == old(path[..k]) + [idx]
    {
      visited[idx] := 1;
      Advance(idx);
      FewDistinct(path[..k], |g|);
    }

    /** The arrays and flags agree with what the search knows. */
    ghost predicate Searching(g: Graph, h: Search)
      reads this`keys, this`adj, this`deadlock, this`printed, visited
    {
      && Valid() && g == Waits() && Known(g, h) && Verdict(g, h, deadlock) && Shown(g, printed, deadlock)
      && Marked(visited[..], |g|, h.seen)
    }

    /**
      `DFS`, come to `idx` over edge `j` of `u`. It goes down only to vertices not seen before, so
      it ends; `path` grows by one vertex, which the caller takes off again.
    */
    method DFS(idx: nat, ghost g: Graph, ghost h: Search, ghost u: nat, ghost j: nat) returns (r: int, ghost h': Search)
      requires Searching(g, h) && NextEdge(g, h, u, j) && g[u][j] == idx
      requires 0 < k <= MAX && OnPath(g, path[..k], h.seen) && path[k - 1] == u
      modifies `k, `deadlock, `printed, path, visited
      ensures Searching(g, h') && Explored(g, h, h', u, j) && idx in h'.seen
      ensures (old(deadlock) || idx in h.seen ==> deadlock)
      ensures k == old(k) + 1 && path[..k] == old(path[..k]) + [idx]
      ensures r == if idx in h.seen then 0 else 1
      decreases |g| - |h.seen|, 1
    {
      SeenSize(g, h);
      if visited[..][idx] == 1 {
        h' := Again(idx, g, h, u, j);
        r := 0;
      } else {
        h' := Anew(idx, g, h, u, j);
        r := 1;
      }
    }

    /** `DFS` at a vertex that is marked. */
    method Again(idx: nat, ghost g: Graph, ghost h: Search, ghost u: nat, ghost j: nat) returns (ghost h': Search)
      requires Searching(g, h) && NextEdge(g, h, u, j) && g[u][j] == idx && idx in h.seen
      requires 0 < k <= MAX && OnPath(g, path[..k], h.seen) && path[k - 1] == u
      modifies `k, `deadlock, `printed, path
      ensures Searching(g, h') && Explored(g, h, h', u, j) && idx in h'.seen
      ensures (old(deadlock) || idx in h.seen ==> deadlock)
      ensures k == old(k) + 1 && path[..k] == old(path[..k]) + [idx]
    {
      assert idx in g[u] && path[k - 1] == path[..k][k - 1];
      MeetAgain(idx, g, h.seen);
      h' := Rediscover(g, h, u, j);
    }

    method Enter(idx: nat, ghost g: Graph, ghost h: Search, ghost u: nat, ghost j: nat) returns (ghost h': Search)
      requires Searching(g, h) && NextEdge(g, h, u, j) && g[u][j] == idx && idx !in h.seen
      requires 0 < k <= MAX && OnPath(g, path[..k], h.seen) && path[k - 1] == u
      modifies `k, path, visited
      ensures Searching(g, h') && PartlyExplored(g, h, h', u, j, idx, 0)
      ensures 0 < k <= MAX && OnPath(g, path[..k], h'.seen) && path[k - 1] == idx
      ensures k == old(k) + 1 && path[..k] == old(path[..k]) + [idx]
    {
      assert idx in g[u] && path[k - 1] == path[..k][k - 1];
      Mark(idx, g, h.seen);
      h' := Discover(g, h, u, j, !deadlock);
      assert h'.seen == h.seen + {idx};
    }

    /** `DFS` at a vertex that is not marked. */
    method Anew(idx: nat, ghost g: Graph, ghost h: Search, ghost u: nat, ghost j: nat) returns (ghost h': Search)
      requires Searching(g, h) && NextEdge(g, h, u, j) && g[u][j] == idx && idx !in h.seen
      requires 0 < k <= MAX && OnPath(g, path[..k], h.seen) && path[k - 1] == u
      modifies `k, `deadlock, `printed, path, visited
      ensures Searching(g, h') && Explored(g, h, h', u, j) && idx in h'.seen
      ensures (old(deadlock) || idx in h.seen ==> deadlock)
      ensures k == old(k) + 1 && path[..k] == old(path[..k]) + [idx]
      decreases |g| - |h.seen|, 0
    {
      h' := Enter(idx, g, h, u, j);
      SeenGrows(g, h, h', idx);
      h' := Explore(idx, g, h, h', u, j);
      AllExplored(g, h, h', u, j, idx);
    }

    /** The loop of `DFS` over the edges of `idx`. */
    method Explore(idx: nat, ghost g: Graph, ghost h: Search, ghost h0: Search, ghost u: nat, ghost j: nat)
      returns (ghost h': Search)
      requires Searching(g, h0) && Known(g, h) && idx < |g| && idx !in h.seen && PartlyExplored(g, h, h0, u, j, idx, 0)
      requires 0 < k <= MAX && OnPath(g, path[..k], h0.seen) && path[k - 1] == idx
      modifies `k, `deadlock, `printed, path, visited
      ensures Searching(g, h') && PartlyExplored(g, h, h', u, j, idx, |g[idx]|) && (old(deadlock) ==> deadlock)
      ensures k == old(k) && path[..k] == old(path[..k])
      decreases |g| - |h0.seen|, 5
    {
      h' := h0;
      var i, n := 0, |adj[idx]|;
      ghost var p := path[..k];
      assert p[k - 1] == idx;
      while i < n
        invariant i <= n && AtRound(idx, i, p, g, h, h0.seen, h', u, j)
        invariant k == |p| && (old(deadlock) ==> deadlock)
      {
        h' := Round(idx, i, p, g, h, h0.seen, h', u, j);
        i := i + 1;
      }
    }

    /** The loop over the edges of `idx` stands at edge `i`; `p` is the path, and `least` had been seen at the start. */
    ghost predicate AtRound(idx: nat, i: nat, p: seq<int>, g: Graph, h: Search, least: set<nat>, h': Search, u: nat,
          j: nat)
      reads this`keys, this`adj, this`deadlock, this`printed, this`k, visited, path
    {
      && Searching(g, h') && Known(g, h) && idx < |g| && idx !in h.seen
      && PartlyExplored(g, h, h', u, j, idx, i) && least <= h'.seen
      && 0 < k <= MAX && path[..k] == p && OnPath(g, p, h'.seen) && p[k - 1] == idx
    }

    /** One round of that loop. */
    method Round(idx: nat, i: nat, ghost p: seq<int>,
                 ghost g: Graph, ghost h: Search, ghost least: set<nat>, ghost before: Search, ghost u: nat,
                   ghost j: nat)
      returns (ghost h': Search)
      requires AtRound(idx, i, p, g, h, least, before, u, j) && i < |adj[idx]|
      modifies `k, `deadlock, `printed, path, visited
      ensures AtRound(idx, i + 1, p, g, h, least, h', u, j)
      ensures k == old(k) && (old(deadlock) ==> deadlock)
      decreases |g| - |least|, 4
    {
      NextOfVertex(g, h, before, u, j, idx, i);
      assert path[k - 1] == p[k - 1];
      h' := Descend(idx, i, g, least, before);
      ExploreNext(g, h, before, h', u, j, idx, i);
      StillOnPath(g, p, before.seen, h'.seen);
    }

    /** Goes down over edge `i` of `idx`; `least` had been seen when the loop started. */
    method Descend(idx: nat, i: nat, ghost g: Graph, ghost least: set<nat>, ghost h: Search) returns (ghost h': Search)
      requires Searching(g, h) && NextEdge(g, h, idx, i) && i < |adj[idx]| && least <= h.seen
      requires 0 < k <= MAX && OnPath(g, path[..k], h.seen) && path[k - 1] == idx
      modifies `k, `deadlock, `printed, path, visited
      ensures Searching(g, h') && Explored(g, h, h', idx, i) && (old(deadlock) ==> deadlock)
      ensures k == old(k) && path[..k] == old(path[..k])
      decreases |g| - |least|, 3
    {
      TargetOf(idx, i);
      var next := SearchVertex(adj[idx][i]);
      SeenSize(g, h);
      SubsetSize(least, h.seen);
      h' := ThereAndBack(next, g, h, idx, i);
    }

    /** `DFS` from the vertex `next`, after which the path is one vertex shorter again. */
    method ThereAndBack(next: nat, ghost g: Graph, ghost h: Search, ghost idx: nat, ghost i: nat)
      returns (ghost h': Search)
      requires Searching(g, h) && NextEdge(g, h, idx, i) && g[idx][i] == next
      requires 0 < k <= MAX && OnPath(g, path[..k], h.seen) && path[k - 1] == idx
      modifies `k, `deadlock, `printed, path, visited
      ensures Searching(g, h') && Explored(g, h, h', idx, i) && (old(deadlock) ==> deadlock)
      ensures k == old(k) && path[..k] == old(path[..k])
      decreases |g| - |h.seen|, 2
    {
      ghost var p := path[..k];
      var _, after := DFS(next, g, h, idx, i);
      BackOne(path[..], k, p, next);
      k := k - 1;
      h' := after;
    }

    /** Unmarks all vertices but `idx`, and clears the path behind its start. */
    method Reset(idx: nat)
      requires Valid() && idx < |keys| && visited[idx] == 1 && path[0] == idx
      modifies `k, path, visited
      ensures Marked(visited[..], |keys|, {idx}) && k == 1 && path[0] == idx
    {
      for i := 0 to |keys|
        modifies visited
        invariant forall n :: 0 <= n < i && n != idx ==> visited[n] == 0
        invariant visited[idx] == 1 && path[0] == idx
      {
        if i != idx { visited[i] := 0; }
      }
      for i := 1 to MAX + 1
        modifies path
        invariant path[0] == idx
      {
        path[i] := -1;
      }
      k := 1;
    }

    /** The search over one edge of `idx`. */
    method SearchEdge(idx: nat, f: nat, ghost g: Graph)
      requires Valid() && g == Waits() && idx < |g| && f < |adj[idx]| && visited[idx] == 1 && path[0] == idx
      requires (deadlock ==> HasCycle(g) || HasDetour(g)) && Shown(g, printed, deadlock)
      modifies `k, `deadlock, `printed, path, visited
      ensures visited[idx] == 1 && path[0] == idx && Shown(g, printed, deadlock)
      ensures if deadlock then HasCycle(g) || HasDetour(g) else !old(deadlock) && Clear(g, idx, f)
    {
      Reset(idx);
      TargetOf(idx, f);
      var next := SearchVertex(adj[idx][f]);
      ghost var h := Search(idx, f, {idx}, map[], {});
      assert path[..k] == [idx];
      var _, h' := DFS(next, g, h, idx, f);
      Front(path[..k], [idx], next);
      assert path[..k][0] == idx;
      if !deadlock {
        FromStart(g, h, h');
        NothingFound(g, h');
      }
    }

    method SearchForCycle(idx: nat, ghost g: Graph)
      requires Valid() && g == Waits() && idx < |g|
      requires (deadlock ==> HasCycle(g) || HasDetour(g)) && Shown(g, printed, deadlock)
      modifies `k, `deadlock, `printed, path, visited
      ensures Shown(g, printed, deadlock)
      ensures if deadlock then HasCycle(g) || HasDetour(g)
              else !old(deadlock) && forall f :: 0 <= f < |g[idx]| ==> Clear(g, idx, f)
    {
      visited[idx] := 1;
      k := 0;
      path[k] := idx;
      k := k + 1;
      for f := 0 to |adj[idx]|
        invariant visited[idx] == 1 && path[0] == idx && Shown(g, printed, deadlock)
        invariant if deadlock then HasCycle(g) || HasDetour(g)
                  else !old(deadlock) && forall n :: 0 <= n < f ==> Clear(g, idx, n)
      {
        SearchEdge(idx, f, g);
      }
    }

    /**
      `check_dead_lock`: the flag comes up exactly if the graph has a cycle, or two ways round behind
      a common first edge; what is printed are walks that end where the search had been before.
    */
    method CheckDeadLock()
      requires Valid()
      modifies `k, `deadlock, `printed, path, visited
      ensures deadlock <==> HasCycle(Waits()) || HasDetour(Waits())
      ensures Shown(Waits(), printed, deadlock)
    {
      deadlock, printed := false, [];
      ghost var g := Waits();
      var i := 0;
      while i < |keys| && !deadlock
        invariant i <= |keys| && Shown(g, printed, deadlock)
        invariant if deadlock then HasCycle(g) || HasDetour(g)
                  else forall s, f :: 0 <= s < i && 0 <= f < |g[s]| ==> Clear(g, s, f)
      {
        SearchForCycle(i, g);
        i := i + 1;
      }
      if !deadlock { AllClear(g); }
    }
  }
}
