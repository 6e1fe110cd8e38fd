/** Directed graphs as sets of (parent, child) pairs: walks, elementary cycles and
    what it means to lie downstream of a cycle. Shared by the sorting and the
    cycle-finding modules. */
module Graphs {
  import opened Sequences

  /** A graph item. The program accepts any hashable value, so nothing but equality is assumed. */
  type Node(==, !new)

  type Graph = set<(Node, Node)>

  ghost predicate Walk(g: Graph, w: seq<Node>) {
    |w| > 0 && forall i :: 0 <= i < |w| - 1 ==> (w[i], w[i + 1]) in g
  }

  /** Each item is a parent of the next, the last is a parent of the first, and none repeats. */
  ghost predicate ElementaryCycle(g: Graph, c: seq<Node>) {
    Walk(g, c) && Distinct(c) && (c[|c| - 1], c[0]) in g
  }

  ghost predicate Acyclic(g: Graph) {
    forall c: seq<Node> :: !ElementaryCycle(g, c)
  }

  /** w leads from some node of the elementary cycle c to x. */
  ghost predicate Lasso(g: Graph, c: seq<Node>, w: seq<Node>, x: Node) {
    ElementaryCycle(g, c) && Walk(g, w) && w[0] in c && w[|w| - 1] == x
  }

  ghost predicate Downstream(g: Graph, x: Node) {
    exists c, w :: Lasso(g, c, w, x)
  }

  /** Some walk with exactly k edges ends at x. */
  ghost predicate HasIncoming(g: Graph, x: Node, k: nat) {
    exists w :: Walk(g, w) && |w| == k + 1 && w[k] == x
  }

  /** Every item of s comes after all of its parents. */
  ghost predicate ParentsFirst(g: Graph, s: seq<Node>) {
    forall i, p {:trigger (p, s[i]) in g} :: 0 <= i < |s| && (p, s[i]) in g ==> p in s[..i]
  }

  ghost predicate HasParentIn(g: Graph, within: set<Node>, x: Node) {
    exists y :: y in within && (y, x) in g
  }

  ghost predicate EachHasParentIn(g: Graph, within: set<Node>) {
    forall x {:trigger HasParentIn(g, within, x)} :: x in within ==> HasParentIn(g, within, x)
  }

  /** Walking backwards inside a finite set in which every node has a parent must close a cycle. */
  lemma {:induction false} BackwardLasso(g: Graph, within: set<Node>, w: seq<Node>) returns (c: seq<Node>, v: seq<Node>)
    requires Walk(g, w) && Distinct(w) && forall x :: x in w ==> x in within
    requires EachHasParentIn(g, within)
    ensures Lasso(g, c, v, w[|w| - 1])
    ensures forall x :: x in c ==> x in within
    decreases |within| - |w|
  {
    DistinctBound(w, within);
    assert HasParentIn(g, within, w[0]);
    var y :| y in within && (y, w[0]) in g;
    if y in w {
      var j :| 0 <= j < |w| && w[j] == y;
      c, v := w[..j + 1], w;
    } else {
      DistinctBound([y] + w, within);
      c, v := BackwardLasso(g, within, [y] + w);
    }
  }

  lemma DownstreamHasParent(g: Graph, x: Node) returns (y: Node)
    requires Downstream(g, x)
    ensures (y, x) in g && Downstream(g, y)
  {
    var c, w :| Lasso(g, c, w, x);
    if |w| == 1 {
      var j :| 0 <= j < |c| && c[j] == x;
      y := if j == 0 then c[|c| - 1] else c[j - 1];
      assert Lasso(g, c, [y], y);
    } else {
      y := w[|w| - 2];
      assert Lasso(g, c, w[..|w| - 1], y);
    }
  }

  /** Nothing downstream of a cycle can be listed with its parents first. */
  lemma {:induction false} OrderedExcludesDownstream(g: Graph, s: seq<Node>, i: nat)
    requires ParentsFirst(g, s) && i < |s|
    ensures !Downstream(g, s[i])
  {
    if Downstream(g, s[i]) {
      var y := DownstreamHasParent(g, s[i]);
      var j :| 0 <= j < i && s[..i][j] == y;
      OrderedExcludesDownstream(g, s, j);
    }
  }

  /** The nodes left over by a sort, each with a leftover parent, are exactly those downstream of a cycle. */
  lemma LeftoverIsDownstream(g: Graph, nodes: set<Node>, s: seq<Node>, left: set<Node>)
    requires ParentsFirst(g, s)
    requires nodes == left + (set x | x in s)
    requires EachHasParentIn(g, left)
    ensures forall x :: x in nodes ==> (x in left <==> Downstream(g, x))
  {
    forall x | x in nodes
      ensures x in left <==> Downstream(g, x)
    {
      if x in left {
        var c, w := BackwardLasso(g, left, [x]);
      } else {
        var i :| 0 <= i < |s| && s[i] == x;
        OrderedExcludesDownstream(g, s, i);
      }
    }
  }

  lemma NoneDownstreamIffAcyclic(g: Graph, nodes: set<Node>, left: set<Node>)
    requires forall x :: x in left <==> x in nodes && Downstream(g, x)
    requires forall e :: e in g ==> e.1 in nodes
    ensures left == {} <==> Acyclic(g)
  {
    if x :| x in left {
      var c, w :| Lasso(g, c, w, x);
      assert ElementaryCycle(g, c);
    } else if c :| ElementaryCycle(g, c) {
      assert (c[|c| - 1], c[0]).1 in nodes;
      assert Lasso(g, c, [c[0]], c[0]);
    }
  }

  lemma HasIncomingStep(g: Graph, x: Node, k: nat)
    ensures HasIncoming(g, x, k + 1) <==> exists y :: (y, x) in g && HasIncoming(g, y, k)
  {
    if HasIncoming(g, x, k + 1) {
      var w :| Walk(g, w) && |w| == k + 2 && w[k + 1] == x;
      assert Walk(g, w[..k + 1]) && w[..k + 1][k] == w[k];
      assert (w[k], x) in g;
    }
    if y :| (y, x) in g && HasIncoming(g, y, k) {
      var w :| Walk(g, w) && |w| == k + 1 && w[k] == y;
      assert Walk(g, w + [x]);
    }
  }

  lemma HasIncomingZero(g: Graph, x: Node)
    ensures HasIncoming(g, x, 0)
  {
    assert Walk(g, [x]);
  }

  lemma {:induction false} HasIncomingShorter(g: Graph, x: Node, k: nat)
    requires HasIncoming(g, x, k + 1)
    ensures HasIncoming(g, x, k)
  {
    var w :| Walk(g, w) && |w| == k + 2 && w[k + 1] == x;
    assert Walk(g, w[1..]) && w[1..][k] == x;
  }

  lemma {:induction false} DownstreamHasIncoming(g: Graph, x: Node, k: nat)
    requires Downstream(g, x)
    ensures HasIncoming(g, x, k)
  {
    if k == 0 {
      HasIncomingZero(g, x);
    } else {
      var y := DownstreamHasParent(g, x);
      DownstreamHasIncoming(g, y, k - 1);
      HasIncomingStep(g, x, k - 1);
    }
  }
}
