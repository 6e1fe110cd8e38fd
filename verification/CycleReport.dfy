/** What the sort reports on failure is all that the cycle finder needs. */
module CycleReport {
  import opened Graphs
  import FindCycles
  import TopSort

  lemma TableEdges(pairs: TopSort.Pairs, done: set<Node>, children: map<Node, seq<Node>>, p: Node, c: Node)
    requires TopSort.ChildTable(pairs, done, children)
    ensures (p, c) in FindCycles.Edges(children) <==> p !in done && (p, c) in TopSort.Edges(pairs)
  {
    TopSort.ChildrenAreEdges(pairs, p);
  }

  lemma CycleInSubgraph(g: Graph, h: Graph, c: seq<Node>)
    requires ElementaryCycle(g, c)
    requires forall e :: e in g && e.0 in c ==> e in h
    ensures ElementaryCycle(h, c)
  {}

  /** The children table of a CycleError has exactly the elementary cycles of the sorted pairs. */
  lemma ErrorKeepsEveryCycle(pairs: TopSort.Pairs, nodes: set<Node>, done: set<Node>,
                             numParents: map<Node, int>, children: map<Node, seq<Node>>, c: seq<Node>)
    requires TopSort.Mentioned(pairs) <= nodes && TopSort.Stuck(pairs, nodes, done, numParents, children)
    ensures ElementaryCycle(FindCycles.Edges(children), c) <==> ElementaryCycle(TopSort.Edges(pairs), c)
  {
    var g, h := TopSort.Edges(pairs), FindCycles.Edges(children);
    forall e | e in h
      ensures e in g
    {
      TableEdges(pairs, done, children, e.0, e.1);
    }
    if ElementaryCycle(g, c) {
      forall e | e in g && e.0 in c
        ensures e in h
      {
        assert e.0 in TopSort.Mentioned(pairs);
        assert Lasso(g, c, [e.0], e.0);
        TableEdges(pairs, done, children, e.0, e.1);
      }
      CycleInSubgraph(g, h, c);
    } else if ElementaryCycle(h, c) {
      CycleInSubgraph(h, g, c);
    }
  }

  /** Debugging a failed sort: the cycle finder, given the reported table, lists every cycle of the sorted pairs
      and nothing else, and lists none only when there is none. */
  lemma CyclesOfError(pairs: TopSort.Pairs, nodes: set<Node>, done: set<Node>, numParents: map<Node, int>,
                      children: map<Node, seq<Node>>, cycles: seq<seq<Node>>)
    requires TopSort.Mentioned(pairs) <= nodes && TopSort.Stuck(pairs, nodes, done, numParents, children)
    requires FindCycles.Sound(children, cycles)
    requires forall c :: ElementaryCycle(FindCycles.Edges(children), c) ==> FindCycles.Covered(cycles, c)
    ensures forall c :: c in cycles ==> ElementaryCycle(TopSort.Edges(pairs), c)
    ensures forall c :: ElementaryCycle(TopSort.Edges(pairs), c) ==> FindCycles.Covered(cycles, c)
    ensures cycles == [] <==> Acyclic(TopSort.Edges(pairs))
  {
    forall c: seq<Node>
      ensures ElementaryCycle(FindCycles.Edges(children), c) <==> ElementaryCycle(TopSort.Edges(pairs), c)
    {
      ErrorKeepsEveryCycle(pairs, nodes, done, numParents, children, c);
    }
    if cycles != [] {
      assert ElementaryCycle(TopSort.Edges(pairs), cycles[0]);
    }
  }
}
