/** A detector that raises an alarm for a graph without a cycle. */
module DeadlockAlarm {
  import opened Options
  import opened Deadlock

  const P0 := Source(0, PROCESS)
  const P1 := Source(1, PROCESS)
  const P2 := Source(2, PROCESS)
  const P3 := Source(3, PROCESS)

  /** The edges after `add_edge`, for the vertices `keys` that are listed then. */
  ghost predicate OneMoreEdge(keys: seq<Source>, before: seq<seq<Source>>, after: seq<seq<Source>>, from: Source,
        to: Source) {
    && |before| <= |after| == |keys|
    && forall u :: 0 <= u < |after| ==>
         after[u] == (if u < |before| then before[u] else []) + (if keys[u] == from then [to] else [])
  }

  /** The detector knows these vertices and edges. */
  ghost predicate Knows(d: Detector, keys: seq<Source>, adj: seq<seq<Source>>)
    reads d
  {
    d.Valid() && d.keys == keys && d.adj == adj
  }

  lemma SameEdges(keys: seq<Source>, before: seq<seq<Source>>, a: seq<seq<Source>>, b: seq<seq<Source>>,
        from: Source, to: Source)
    requires OneMoreEdge(keys, before, a, from, to) && OneMoreEdge(keys, before, b, from, to)
    ensures a == b
  {
  }

  method Tell(d: Detector, from: Source, to: Source, ghost keys: seq<Source>, ghost adj: seq<seq<Source>>,
              ghost keys': seq<Source>, ghost adj': seq<seq<Source>>)
    requires Knows(d, keys, adj) && keys' == WithVertex(WithVertex(keys, from), to) && |keys'| <= MAX
    requires OneMoreEdge(keys', adj, adj', from, to)
    modifies d`keys, d`adj
    ensures Knows(d, keys', adj')
  {
    d.AddEdge(from, to);
    SameEdges(keys', adj, d.adj, adj', from, to);
  }

  lemma FourVertices(keys: seq<Source>, adj: seq<seq<Source>>)
    requires keys == [P0, P1, P2, P3] && Targets(keys, adj) && adj == [[P1], [P2, P3], [P3], []]
    ensures GraphOf(keys, adj) == [[1], [2, 3], [3], []]
  {
    var g := GraphOf(keys, adj);
    assert IndexIn(keys, P1) == 1 && IndexIn(keys, P2) == 2 && IndexIn(keys, P3) == 3;
    assert g[0] == [1] && g[1] == [2, 3] && g[2] == [3] && g[3] == [];
  }

  const K2 := [P0, P1]
  const K3 := [P0, P1, P2]
  const K4 := [P0, P1, P2, P3]
  const A1: seq<seq<Source>> := [[P1], []]
  const A2: seq<seq<Source>> := [[P1], [P2], []]
  const A3: seq<seq<Source>> := [[P1], [P2, P3], [], []]
  const A4: seq<seq<Source>> := [[P1], [P2, P3], [P3], []]

  lemma FirstTwoEdges()
    ensures WithVertex(WithVertex([], P0), P1) == K2 && OneMoreEdge(K2, [], A1, P0, P1)
    ensures WithVertex(WithVertex(K2, P1), P2) == K3 && OneMoreEdge(K3, A1, A2, P1, P2)
  {
    assert K2[0] == P0 && K2[1] == P1;
  }

  lemma ThirdEdge()
    ensures WithVertex(WithVertex(K3, P1), P3) == K4 && OneMoreEdge(K4, A2, A3, P1, P3)
  {
    assert K3[1] == P1;
  }

  lemma FourthEdge()
    ensures WithVertex(WithVertex(K4, P2), P3) == K4 && OneMoreEdge(K4, A3, A4, P2, P3)
  {
    assert K4[2] == P2 && K4[3] == P3;
  }

  /** Four processes, and four edges in two ways from the first to the last one: no cycle. */
  method FourEdges() returns (d: Detector)
    ensures fresh(d) && fresh(d.visited) && fresh(d.path) && d.Valid() && d.Waits() == [[1], [2, 3], [3], []]
  {
    d := new Detector();
    FirstTwoEdges();
    Tell(d, P0, P1, [], [], K2, A1);
    Tell(d, P1, P2, K2, A1, K3, A2);
    ThirdEdge();
    Tell(d, P1, P3, K3, A2, K4, A3);
    FourthEdge();
    Tell(d, P2, P3, K4, A3, K4, A4);
    FourVertices(d.keys, d.adj);
  }

  method RaiseFalseAlarm() returns (d: Detector)
    ensures d.Valid() && d.deadlock && !HasCycle(d.Waits())
  {
    d := FourEdges();
    FalseAlarm();
    d.CheckDeadLock();
  }
}
